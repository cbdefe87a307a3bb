/** Values and sequence helpers shared by every part of the model: an optional
    value, first-occurrence deduplication, an insertion-ordered dictionary and
    a stable sort by an integer key. */
module Common {

  datatype Option<+T> = None | Some(value: T)

  /** The value of a spreadsheet cell as the source compares it: empty (None
      in openpyxl, NaN in pandas), text, or a number. */
  datatype Value = Blank | Str(s: string) | Num(n: int)

  /** The name of the overall total: the key of the summed table among the
      per-division tables, and the category of the report's total anchor. */
  const OverallCategory := "Общий итог"

  /** No element occurs twice. */
  predicate Distinct<T(==)>(s: seq<T>) {
    forall i, j :: 0 <= i < j < |s| ==> s[i] != s[j]
  }

  /** Position of the first occurrence of `x` in `s` (Python's `list.index`). */
  function IndexOf<T(==)>(s: seq<T>, x: T): (i: nat)
    requires x in s
    ensures i < |s| && s[i] == x && x !in s[..i]
  {
    if s[0] == x then 0
    else
      assert x in s[1..];
      var j := IndexOf(s[1..], x);
      assert s[..j + 1] == [s[0]] + s[1..][..j];
      1 + j
  }

  /** The elements of `s` with later repetitions dropped, in first-occurrence
      order (pandas' `unique`, and the `if x not in acc: acc.append(x)` loop). */
  function Dedup<T(==,!new)>(s: seq<T>): (r: seq<T>)
    ensures Distinct(r)
    ensures forall x :: x in r <==> x in s
  {
    if s == [] then []
    else
      var p := Dedup(s[..|s| - 1]);
      assert forall x :: x in s <==> x in s[..|s| - 1] || x == s[|s| - 1] by {
        assert s == s[..|s| - 1] + [s[|s| - 1]];
      }
      if s[|s| - 1] in p then p else p + [s[|s| - 1]]
  }

  lemma {:induction false} IndexOfPrefix<T>(s: seq<T>, n: nat, x: T)
    requires n <= |s| && x in s[..n]
    ensures x in s && IndexOf(s, x) == IndexOf(s[..n], x)
  {
    var i := IndexOf(s[..n], x);
    var k := IndexOf(s, x);
    assert s[..n][..i] == s[..i];
  }

  /** Dedup keeps the order of first occurrences: an element listed earlier
      occurs for the first time earlier in the input. */
  lemma {:induction false} DedupFirstSeenOrder<T(!new)>(s: seq<T>)
    ensures forall i, j :: 0 <= i < j < |Dedup(s)| ==>
              IndexOf(s, Dedup(s)[i]) < IndexOf(s, Dedup(s)[j])
  {
    if s != [] {
      var n := |s| - 1;
      var init := s[..n];
      var p := Dedup(init);
      DedupFirstSeenOrder(init);
      forall y | y in p ensures IndexOf(s, y) == IndexOf(init, y) && IndexOf(s, y) < n {
        IndexOfPrefix(s, n, y);
      }
      if s[n] !in p {
        assert s[n] !in init;
        assert IndexOf(s, s[n]) == n;
      }
    }
  }

  /** An insertion-ordered dictionary, as Python 3 keeps `dict` entries. */
  type OrderedMap<K, V> = seq<(K, V)>

  function Keys<K, V>(m: OrderedMap<K, V>): (ks: seq<K>)
    ensures |ks| == |m| && forall i :: 0 <= i < |m| ==> ks[i] == m[i].0
  {
    seq(|m|, i requires 0 <= i < |m| => m[i].0)
  }

  /** `m[k]`, or None when `k` is not a key. */
  function Get<K(==), V>(m: OrderedMap<K, V>, k: K): (r: Option<V>)
    ensures r.Some? <==> k in Keys(m)
  {
    if k in Keys(m) then Some(m[IndexOf(Keys(m), k)].1) else None
  }

  /** `m[k] = v`: an existing key keeps its position and takes the new value;
      a new key is appended at the end. */
  function Put<K(==,!new), V>(m: OrderedMap<K, V>, k: K, v: V): (r: OrderedMap<K, V>)
    ensures Keys(r) == if k in Keys(m) then Keys(m) else Keys(m) + [k]
    ensures Get(r, k) == Some(v)
    ensures forall k' :: k' != k ==> Get(r, k') == Get(m, k')
  {
    if k in Keys(m) then
      var i := IndexOf(Keys(m), k);
      var r := m[i := (k, v)];
      assert Keys(r) == Keys(m);
      assert Keys(r)[..i] == Keys(m)[..i];
      r
    else
      var r := m + [(k, v)];
      assert Keys(r) == Keys(m) + [k];
      forall k' | k' != k && k' in Keys(m) ensures Get(r, k') == Get(m, k') {
        IndexOfPrefix(Keys(r), |m|, k');
        assert Keys(r)[..|m|] == Keys(m);
      }
      r
  }

  /** The values of an ordered dictionary, in key order. */
  function Values<K, V>(m: OrderedMap<K, V>): (vs: seq<V>)
    ensures |vs| == |m| && forall i :: 0 <= i < |m| ==> vs[i] == m[i].1
  {
    seq(|m|, i requires 0 <= i < |m| => m[i].1)
  }

  /** Every value after `Put` is the new one or was there before. */
  lemma {:induction false} PutValues<K(!new), V(!new)>(m: OrderedMap<K, V>, k: K, v: V)
    ensures forall x :: x in Values(Put(m, k, v)) ==> x == v || x in Values(m)
  {
    var r := Put(m, k, v);
    forall x | x in Values(r) ensures x == v || x in Values(m) {
      var i :| 0 <= i < |r| && Values(r)[i] == x;
      if k in Keys(m) {
        var j := IndexOf(Keys(m), k);
        assert r == m[j := (k, v)];
        if i != j {
          assert Values(m)[i] == x;
        }
      } else {
        assert r == m + [(k, v)];
        if i < |m| {
          assert Values(m)[i] == x;
        }
      }
    }
  }

  lemma {:induction false} PutKeepsDistinct<K(!new), V>(m: OrderedMap<K, V>, k: K, v: V)
    requires Distinct(Keys(m))
    ensures Distinct(Keys(Put(m, k, v)))
  {
  }

  /** Every element is no greater under `key` than the ones after it. */
  ghost predicate SortedBy<T>(s: seq<T>, key: T -> int) {
    forall i, j :: 0 <= i < j < |s| ==> key(s[i]) <= key(s[j])
  }

  /** The elements of `s` whose key is `k`, in their order in `s`. */
  function WithKey<T>(s: seq<T>, key: T -> int, k: int): (r: seq<T>)
    ensures |r| <= |s|
  {
    if s == [] then []
    else (if key(s[0]) == k then [s[0]] else []) + WithKey(s[1..], key, k)
  }

  /** Puts `x` in front of the first element whose key is not smaller. */
  function Insert<T>(x: T, s: seq<T>, key: T -> int): (r: seq<T>)
    ensures |r| == |s| + 1
  {
    if s == [] then [x]
    else if key(x) <= key(s[0]) then [x] + s
    else [s[0]] + Insert(x, s[1..], key)
  }

  /** Stable insertion sort by an integer key. */
  function SortBy<T>(s: seq<T>, key: T -> int): (r: seq<T>)
    ensures |r| == |s|
  {
    if s == [] then [] else Insert(s[0], SortBy(s[1..], key), key)
  }

  lemma {:induction false} InsertMembers<T>(x: T, s: seq<T>, key: T -> int)
    ensures multiset(Insert(x, s, key)) == multiset(s) + multiset{x}
    ensures forall y :: y in Insert(x, s, key) <==> y == x || y in s
  {
    if s != [] && key(x) > key(s[0]) {
      InsertMembers(x, s[1..], key);
      assert s == [s[0]] + s[1..];
    }
  }

  lemma {:induction false} InsertSorted<T>(x: T, s: seq<T>, key: T -> int)
    requires SortedBy(s, key)
    ensures SortedBy(Insert(x, s, key), key)
  {
    if s != [] && key(x) > key(s[0]) {
      InsertSorted(x, s[1..], key);
      InsertMembers(x, s[1..], key);
      var r := Insert(x, s, key);
      assert r == [s[0]] + Insert(x, s[1..], key);
      forall j | 0 < j < |r| ensures key(r[0]) <= key(r[j]) {
        var t := Insert(x, s[1..], key);
        assert r[j] == t[j - 1];
        assert r[j] in multiset(t);
        if r[j] != x {
          assert r[j] in multiset(s[1..]);
          var m := IndexOf(s[1..], r[j]);
          assert s[m + 1] == r[j];
        }
      }
    }
  }

  lemma {:induction false} InsertWithKey<T>(x: T, s: seq<T>, key: T -> int, k: int)
    ensures WithKey(Insert(x, s, key), key, k) == (if key(x) == k then [x] else []) + WithKey(s, key, k)
  {
    if s != [] {
      var r := Insert(x, s, key);
      if key(x) <= key(s[0]) {
        assert r == [x] + s;
        assert r[0] == x && r[1..] == s;
        assert WithKey(r, key, k) == (if key(x) == k then [x] else []) + WithKey(s, key, k);
      } else {
        InsertWithKey(x, s[1..], key, k);
        var t := Insert(x, s[1..], key);
        assert r == [s[0]] + t;
        assert r[0] == s[0] && r[1..] == t;
        var h := if key(s[0]) == k then [s[0]] else [];
        assert WithKey(r, key, k) == h + WithKey(t, key, k);
        assert WithKey(s, key, k) == h + WithKey(s[1..], key, k);
      }
    }
  }

  /** Sorting yields a permutation of the input, ordered by the key, in which
      elements with equal keys keep their input order. */
  lemma {:induction false} SortByFacts<T>(s: seq<T>, key: T -> int)
    ensures multiset(SortBy(s, key)) == multiset(s)
    ensures SortedBy(SortBy(s, key), key)
    ensures forall k :: WithKey(SortBy(s, key), key, k) == WithKey(s, key, k)
  {
    if s != [] {
      SortByFacts(s[1..], key);
      InsertMembers(s[0], SortBy(s[1..], key), key);
      InsertSorted(s[0], SortBy(s[1..], key), key);
      forall k ensures WithKey(SortBy(s, key), key, k) == WithKey(s, key, k) {
        InsertWithKey(s[0], SortBy(s[1..], key), key, k);
      }
      assert s == [s[0]] + s[1..];
    }
  }

  /** Puts `x` in front of the first element it is `less` than or equal to. */
  function InsertWith<T>(x: T, s: seq<T>, less: (T, T) -> bool): (r: seq<T>)
    ensures |r| == |s| + 1
    ensures multiset(r) == multiset(s) + multiset{x}
  {
    if s == [] then [x]
    else if !less(s[0], x) then [x] + s
    else
      assert s == [s[0]] + s[1..];
      [s[0]] + InsertWith(x, s[1..], less)
  }

  /** Insertion sort by a comparison (`less(a, b)`: a goes first). */
  function SortWith<T>(s: seq<T>, less: (T, T) -> bool): (r: seq<T>)
    ensures multiset(r) == multiset(s)
  {
    if s == [] then []
    else
      assert s == [s[0]] + s[1..];
      InsertWith(s[0], SortWith(s[1..], less), less)
  }

  lemma {:induction false} DistinctCount<T>(s: seq<T>, x: T)
    requires Distinct(s)
    ensures multiset(s)[x] <= 1
  {
    if s != [] {
      assert s == [s[0]] + s[1..];
      DistinctCount(s[1..], x);
      if s[0] == x {
        assert x !in s[1..];
      }
    }
  }

  /** A permutation of a sequence without repetitions has none either. */
  lemma {:induction false} DistinctPermutation<T>(s: seq<T>, t: seq<T>)
    requires Distinct(s) && multiset(s) == multiset(t)
    ensures Distinct(t)
  {
    forall i, j | 0 <= i < j < |t| ensures t[i] != t[j] {
      if t[i] == t[j] {
        var x := t[i];
        assert t == t[..i] + [x] + t[i + 1..j] + [x] + t[j + 1..];
        assert multiset(t)[x] >= 2;
        DistinctCount(s, x);
      }
    }
  }

  /** The dictionary comprehension with a filter: each entry whose value
      `g` maps to Some is stored, in order, under its key. */
  function FoldPut<K(==,!new), V, W>(m: OrderedMap<K, V>, g: V -> Option<W>): OrderedMap<K, W> {
    if m == [] then []
    else
      var acc := FoldPut(m[..|m| - 1], g);
      match g(m[|m| - 1].1)
      case None => acc
      case Some(w) => Put(acc, m[|m| - 1].0, w)
  }

  /** With distinct keys, a key holds `g` of its value, or nothing when `g`
      rejects it or the key is absent. */
  lemma {:induction false} FoldPutGet<K(!new), V, W>(m: OrderedMap<K, V>, g: V -> Option<W>, k: K)
    requires Distinct(Keys(m))
    ensures Get(FoldPut(m, g), k) == if k in Keys(m) then g(m[IndexOf(Keys(m), k)].1) else None
  {
    if m != [] {
      var n := |m| - 1;
      var init := m[..n];
      assert Keys(init) == Keys(m)[..n];
      assert Distinct(Keys(init));
      FoldPutGet(init, g, k);
      if k == m[n].0 {
        assert Keys(m)[n] == k;
        assert IndexOf(Keys(m), k) == n by {
          assert k !in Keys(m)[..n];
        }
      } else if k in Keys(m) {
        var i := IndexOf(Keys(m), k);
        assert i != n && Keys(init)[i] == k;
        IndexOfPrefix(Keys(m), n, k);
      } else {
        assert k !in Keys(init);
      }
    }
  }

  /** Every stored value is `g` of some input value. */
  lemma {:induction false} FoldPutValues<K(!new), V, W(!new)>(m: OrderedMap<K, V>, g: V -> Option<W>)
    ensures forall w :: w in Values(FoldPut(m, g)) ==> exists i :: 0 <= i < |m| && g(m[i].1) == Some(w)
  {
    if m != [] {
      var n := |m| - 1;
      var init := m[..n];
      FoldPutValues(init, g);
      var acc := FoldPut(init, g);
      var r := FoldPut(m, g);
      if g(m[n].1).Some? {
        PutValues(acc, m[n].0, g(m[n].1).value);
      }
      forall w | w in Values(r) ensures exists i :: 0 <= i < |m| && g(m[i].1) == Some(w) {
        if g(m[n].1) == Some(w) {
          assert 0 <= n < |m|;
        } else {
          assert w in Values(acc);
          var i :| 0 <= i < n && g(init[i].1) == Some(w);
          assert init[i] == m[i];
        }
      }
    }
  }

  /** The concatenation `f(lo) + ... + f(last)`. */
  function Gather<T>(f: int -> seq<T>, lo: int, last: int): seq<T>
    decreases last - lo
  {
    if last < lo then [] else Gather(f, lo, last - 1) + f(last)
  }

  /** Every element of `f(r)`, for `r` within `lo..last`, is in the concatenation. */
  lemma {:induction false} GatherContains<T>(f: int -> seq<T>, lo: int, last: int, r: int, x: T)
    requires lo <= r <= last && x in f(r)
    decreases last - r
    ensures x in Gather(f, lo, last)
  {
    if r < last {
      GatherContains(f, lo, last - 1, r, x);
    }
  }
}
