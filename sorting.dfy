/**
 * The three sorts of the scheduler: `Array.prototype.sort` with a numeric
 * comparator (flights by `start`, src/App.jsx:157,161; row events by
 * `startBuffer`, 430), which JavaScript requires to be stable, and the default
 * `sort()` of the row keys (429), which orders strings by their code units.
 */
module Sorting {

  /** Ascending by `key`: what a comparator `(a, b) => key(a) - key(b)` asks for. */
  predicate SortedBy<T>(s: seq<T>, key: T -> int) {
    forall i, j :: 0 <= i < j < |s| ==> key(s[i]) <= key(s[j])
  }

  /** The elements of `s` whose key is `k`, in their order in `s`. */
  function WithKey<T>(s: seq<T>, key: T -> int, k: int): seq<T> {
    if s == [] then [] else WithKey(s[..|s| - 1], key, k) + (if key(s[|s| - 1]) == k then [s[|s| - 1]] else [])
  }

  /** Put `x` after every element of `t` whose key is at most `key(x)` (so after its equals: stability). */
  function Insert<T>(t: seq<T>, x: T, key: T -> int): (r: seq<T>)
    ensures |r| == |t| + 1
  {
    if t == [] || key(t[|t| - 1]) <= key(x) then t + [x]
    else Insert(t[..|t| - 1], x, key) + [t[|t| - 1]]
  }

  /** The stable sort of `s` by `key`, as insertion sort defines it. */
  function SortByKey<T>(s: seq<T>, key: T -> int): (r: seq<T>)
    ensures |r| == |s|
  {
    if s == [] then [] else Insert(SortByKey(s[..|s| - 1], key), s[|s| - 1], key)
  }

  lemma {:induction false} InsertSorted<T>(t: seq<T>, x: T, key: T -> int)
    requires SortedBy(t, key)
    ensures SortedBy(Insert(t, x, key), key)
    ensures forall i :: 0 <= i < |t| + 1 ==> Insert(t, x, key)[i] in t || Insert(t, x, key)[i] == x
    decreases |t|
  {
    if !(t == [] || key(t[|t| - 1]) <= key(x)) {
      var init, last := t[..|t| - 1], t[|t| - 1];
      InsertSorted(init, x, key);
      var r := Insert(init, x, key);
      forall i | 0 <= i < |r| ensures key(r[i]) <= key(last) {
        if r[i] != x {
          assert r[i] in init;
          var j :| 0 <= j < |init| && init[j] == r[i];
          assert t[j] == r[i];
        }
      }
      forall i | 0 <= i < |r| ensures r[i] in t || r[i] == x {
        if r[i] != x {
          assert r[i] in init;
        }
      }
    }
  }

  lemma {:induction false} InsertPermutes<T>(t: seq<T>, x: T, key: T -> int)
    ensures multiset(Insert(t, x, key)) == multiset(t) + multiset{x}
    decreases |t|
  {
    if !(t == [] || key(t[|t| - 1]) <= key(x)) {
      var init, last := t[..|t| - 1], t[|t| - 1];
      InsertPermutes(init, x, key);
      assert t == init + [last];
    }
  }

  lemma {:induction false} WithKeyAppend<T>(s: seq<T>, x: T, key: T -> int, k: int)
    ensures WithKey(s + [x], key, k) == WithKey(s, key, k) + (if key(x) == k then [x] else [])
  {
    assert (s + [x])[..|s + [x]| - 1] == s;
  }

  lemma {:induction false} InsertWithKey<T>(t: seq<T>, x: T, key: T -> int, k: int)
    ensures WithKey(Insert(t, x, key), key, k) == WithKey(t, key, k) + (if key(x) == k then [x] else [])
    decreases |t|
  {
    if t == [] || key(t[|t| - 1]) <= key(x) {
      WithKeyAppend(t, x, key, k);
    } else {
      var init, last := t[..|t| - 1], t[|t| - 1];
      InsertWithKey(init, x, key, k);
      WithKeyAppend(Insert(init, x, key), last, key, k);
    }
  }

  /** The result of the sort is ascending by key. */
  lemma {:induction false} SortByKeySorted<T>(s: seq<T>, key: T -> int)
    ensures SortedBy(SortByKey(s, key), key)
    decreases |s|
  {
    if s != [] {
      SortByKeySorted(s[..|s| - 1], key);
      InsertSorted(SortByKey(s[..|s| - 1], key), s[|s| - 1], key);
    }
  }

  /** The result of the sort is a permutation of its input. */
  lemma {:induction false} SortByKeyPermutes<T>(s: seq<T>, key: T -> int)
    ensures multiset(SortByKey(s, key)) == multiset(s)
    decreases |s|
  {
    if s != [] {
      SortByKeyPermutes(s[..|s| - 1], key);
      InsertPermutes(SortByKey(s[..|s| - 1], key), s[|s| - 1], key);
      assert s == s[..|s| - 1] + [s[|s| - 1]];
    }
  }

  /** The sort is stable: the elements sharing any one key keep their input order. */
  lemma {:induction false} SortByKeyStable<T>(s: seq<T>, key: T -> int, k: int)
    ensures WithKey(SortByKey(s, key), key, k) == WithKey(s, key, k)
    decreases |s|
  {
    if s != [] {
      SortByKeyStable(s[..|s| - 1], key, k);
      InsertWithKey(SortByKey(s[..|s| - 1], key), s[|s| - 1], key, k);
    }
  }

  /**
   * Where `Insert` puts `x`: after the last element whose key is at most
   * `key(x)`, so that every element after it has a larger key.
   */
  lemma {:induction false} InsertSplit<T>(t: seq<T>, x: T, key: T -> int, j: nat)
    requires j <= |t| && (j == 0 || key(t[j - 1]) <= key(x))
    requires forall k :: j <= k < |t| ==> key(t[k]) > key(x)
    ensures Insert(t, x, key) == t[..j] + [x] + t[j..]
    decreases |t|
  {
    if j < |t| {
      var init := t[..|t| - 1];
      InsertSplit(init, x, key, j);
      InsertSplitStep(t, x, key, j);
    }
  }

  lemma InsertSplitStep<T>(t: seq<T>, x: T, key: T -> int, j: nat)
    requires j < |t| && key(t[|t| - 1]) > key(x)
    requires Insert(t[..|t| - 1], x, key) == t[..|t| - 1][..j] + [x] + t[..|t| - 1][j..]
    ensures Insert(t, x, key) == t[..j] + [x] + t[j..]
  {
    var init, last := t[..|t| - 1], t[|t| - 1];
    assert init[..j] == t[..j];
    assert init[j..] + [last] == t[j..];
    calc {
      Insert(t, x, key);
      Insert(init, x, key) + [last];
      (init[..j] + [x] + init[j..]) + [last];
      t[..j] + [x] + (init[j..] + [last]);
      t[..j] + [x] + t[j..];
    }
  }

  /** Insert `a[i]` into the sorted prefix `a[..i]` by shifting larger elements one place right. */
  method InsertAt<T>(a: array<T>, i: nat, key: T -> int)
    requires i < a.Length
    modifies a
    ensures a[..i + 1] == Insert(old(a[..i]), old(a[i]), key)
    ensures a[i + 1..] == old(a[i + 1..])
  {
    var x := a[i];
    ghost var t := a[..i];
    var j := i;
    while j > 0 && key(a[j - 1]) > key(x)
      invariant 0 <= j <= i
      invariant forall k :: 0 <= k < j ==> a[k] == t[k]
      invariant forall k :: j < k <= i ==> a[k] == t[k - 1]
      invariant forall k :: i < k < a.Length ==> a[k] == old(a[k])
      invariant forall k :: j <= k < i ==> key(t[k]) > key(x)
    {
      a[j] := a[j - 1];
      j := j - 1;
    }
    a[j] := x;
    InsertSplit(t, x, key, j);
    ghost var r := t[..j] + [x] + t[j..];
    assert |r| == i + 1;
    forall k | 0 <= k <= i ensures a[k] == r[k] {
      if k < j {
        assert r[k] == t[k];
      } else if k > j {
        assert r[k] == t[k - 1];
      }
    }
    assert a[..i + 1] == r;
  }

  /**
   * `a.sort((x, y) => key(x) - key(y))`, in place: the array ends up holding
   * the stable sort of what it held.
   */
  method SortInPlace<T>(a: array<T>, key: T -> int)
    modifies a
    ensures a[..] == SortByKey(old(a[..]), key)
  {
    ghost var s := a[..];
    var i := 0;
    while i < a.Length
      invariant 0 <= i <= a.Length
      invariant a[..i] == SortByKey(s[..i], key)
      invariant a[i..] == s[i..]
    {
      assert a[i] == s[i] by {
        assert a[i..][0] == s[i..][0];
      }
      SortByKeyPrefix(s, i, key);
      InsertAt(a, i, key);
      assert a[i + 1..] == s[i + 1..] by {
        assert s[i + 1..] == s[i..][1..];
      }
      i := i + 1;
    }
    assert a[..] == a[..a.Length] && s == s[..a.Length];
  }

  /**
   * `sort((x, y) => key(x) - key(y))` applied to a JavaScript array that
   * holds `s`: the elements go into an array, which is sorted in place.
   */
  method SortedCopy<T>(s: seq<T>, key: T -> int) returns (r: seq<T>)
    ensures r == SortByKey(s, key)
  {
    var a := new T[|s|](i requires 0 <= i < |s| => s[i]);
    assert a[..] == s;
    SortInPlace(a, key);
    r := a[..];
  }

  /** Sorting one more element of a prefix is inserting it into the sorted prefix. */
  lemma SortByKeyPrefix<T>(s: seq<T>, i: nat, key: T -> int)
    requires i < |s|
    ensures SortByKey(s[..i + 1], key) == Insert(SortByKey(s[..i], key), s[i], key)
  {
    assert s[..i + 1][..i] == s[..i];
  }

  /** JavaScript's default string order: lexicographic by character, a proper prefix first. */
  predicate StrLess(a: string, b: string)
    decreases |a|
  {
    if b == [] then false
    else if a == [] then true
    else if a[0] != b[0] then a[0] < b[0]
    else StrLess(a[1..], b[1..])
  }

  lemma {:induction false} StrLessIrreflexive(a: string)
    ensures !StrLess(a, a)
    decreases |a|
  {
    if a != [] {
      StrLessIrreflexive(a[1..]);
    }
  }

  lemma {:induction false} StrLessTransitive(a: string, b: string, c: string)
    requires StrLess(a, b) && StrLess(b, c)
    ensures StrLess(a, c)
    decreases |a|
  {
    if a != [] && a[0] == b[0] && b[0] == c[0] {
      StrLessTransitive(a[1..], b[1..], c[1..]);
    }
  }

  lemma {:induction false} StrLessTotal(a: string, b: string)
    ensures a == b || StrLess(a, b) || StrLess(b, a)
    decreases |a|
  {
    if a != [] && b != [] && a[0] == b[0] {
      StrLessTotal(a[1..], b[1..]);
      if a[1..] == b[1..] {
        assert a == [a[0]] + a[1..] && b == [b[0]] + b[1..];
      }
    }
  }

  predicate StrictlyAscending(s: seq<string>) {
    forall i, j :: 0 <= i < j < |s| ==> StrLess(s[i], s[j])
  }

  /** Insert `k` into an ascending list of distinct keys (no change when it is already there). */
  function InsertKey(t: seq<string>, k: string): (r: seq<string>)
    requires StrictlyAscending(t)
    ensures StrictlyAscending(r)
    ensures forall x :: x in r <==> x in t || x == k
    decreases |t|
  {
    if t == [] then [k]
    else if k == t[0] then t
    else if StrLess(k, t[0]) then
      BelowAll(k, t);
      [k] + t
    else
      StrLessTotal(k, t[0]);
      var rest := InsertKey(t[1..], k);
      AboveAll(t[0], t[1..], rest, k);
      [t[0]] + rest
  }

  lemma BelowAll(k: string, t: seq<string>)
    requires StrictlyAscending(t) && t != [] && StrLess(k, t[0])
    ensures StrictlyAscending([k] + t)
  {
    forall j | 1 <= j < |t| ensures StrLess(k, t[j]) {
      StrLessTransitive(k, t[0], t[j]);
    }
  }

  lemma AboveAll(h: string, t: seq<string>, rest: seq<string>, k: string)
    requires StrictlyAscending([h] + t) && StrictlyAscending(rest) && StrLess(h, k)
    requires forall x :: x in rest <==> x in t || x == k
    ensures StrictlyAscending([h] + rest)
  {
    forall j | 0 <= j < |rest| ensures StrLess(h, rest[j]) {
      assert ([h] + t)[0] == h;
      if rest[j] != k {
        assert rest[j] in t;
        var m :| 0 <= m < |t| && t[m] == rest[j];
        assert ([h] + t)[m + 1] == t[m];
      }
    }
  }

  /**
   * `Object.keys(groups).sort()`: the keys of an object are distinct, so the
   * sorted key list is the strictly ascending enumeration of the key set.
   */
  function SortKeys(keys: seq<string>): (r: seq<string>)
    ensures StrictlyAscending(r)
    ensures forall x :: x in r <==> x in keys
  {
    if keys == [] then [] else InsertKey(SortKeys(keys[..|keys| - 1]), keys[|keys| - 1])
  }
}
