/** `Array.prototype.sort` with a comparator of the shape
    `(a, b) => key(b) - key(a)`, the shape of both sorts of the engine (by end
    date, most recent first, and by maximum salary, highest first).

    The sort is stable, as ECMAScript requires since 2019. A comparator that
    returns NaN (an Invalid Date, a NaN amount) makes the order
    implementation-defined; here such a pair simply never swaps, which is one
    of the orders an engine may produce. */
module StableSort {
  import opened JsValues

  /** Both keys are numbers and the first is at least the second. */
  predicate AtLeast(a: JsNumber, b: JsNumber) {
    a.Fin? && b.Fin? && a.value >= b.value
  }

  /** Every key is a finite number (no NaN comparator results). */
  predicate FiniteKeys<T>(s: seq<T>, key: T -> JsNumber) {
    forall i :: 0 <= i < |s| ==> key(s[i]).Fin?
  }

  /** Keys never increase from left to right. */
  predicate SortedDesc<T>(s: seq<T>, key: T -> JsNumber) {
    forall i, j :: 0 <= i < j < |s| ==> AtLeast(key(s[i]), key(s[j]))
  }

  /** The elements whose key is `k`, in their order in `s`. */
  function WithKey<T>(s: seq<T>, key: T -> JsNumber, k: JsNumber): seq<T>
    decreases |s|
  {
    if s == [] then []
    else WithKey(s[..|s| - 1], key, k) + (if key(s[|s| - 1]) == k then [s[|s| - 1]] else [])
  }

  /** One step of insertion sort: `x` moves left past every element whose key
      it strictly exceeds, starting from the right end. */
  function Insert<T>(t: seq<T>, x: T, key: T -> JsNumber): (r: seq<T>)
    ensures |r| == |t| + 1
    decreases |t|
  {
    if t == [] || !Greater(key(x), key(t[|t| - 1])) then t + [x]
    else Insert(t[..|t| - 1], x, key) + [t[|t| - 1]]
  }

  /** The order the sort leaves `s` in. */
  function SortDesc<T>(s: seq<T>, key: T -> JsNumber): (r: seq<T>)
    ensures |r| == |s|
    decreases |s|
  {
    if s == [] then [] else Insert(SortDesc(s[..|s| - 1], key), s[|s| - 1], key)
  }

  /** The in-place sort: insertion sort on the array. */
  method SortInPlace<T>(a: array<T>, key: T -> JsNumber)
    modifies a
    ensures a[..] == SortDesc(old(a[..]), key)
  {
    ghost var s := a[..];
    var i := 0;
    while i < a.Length
      invariant 0 <= i <= a.Length
      invariant a[..] == SortDesc(s[..i], key) + s[i..]
    {
      NextElement(a[..], SortDesc(s[..i], key), s, i);
      InsertAt(a, i, key);
      SortNext(s, key, i);
      i := i + 1;
    }
    assert s[..a.Length] == s;
  }

  /** One pass: `a[i]` moves left into the sorted prefix `a[..i]`. */
  method InsertAt<T>(a: array<T>, i: nat, key: T -> JsNumber)
    requires i < a.Length
    modifies a
    ensures a[..] == Insert(old(a[..i]), old(a[i]), key) + old(a[i + 1..])
  {
    ghost var t := a[..i];
    ghost var rest := a[i + 1..];
    var x := a[i];
    var j := i;
    assert a[..] == t[..j] + [x] + t[j..] + rest by {
      assert a[..] == a[..i] + [a[i]] + a[i + 1..];
    }
    assert t[..j] == t && t[j..] == [];
    while j > 0 && Greater(key(x), key(a[j - 1]))
      invariant 0 <= j <= i
      invariant a[..] == t[..j] + [x] + t[j..] + rest
      invariant Insert(t, x, key) == Insert(t[..j], x, key) + t[j..]
    {
      InsertShift(t, x, key, j);
      ShiftStep(a[..], t, x, rest, j);
      a[j] := a[j - 1];
      a[j - 1] := x;
      j := j - 1;
    }
    InsertStop(t, x, key, j);
  }

  /** Before the sort reaches position `i`, the rest of the array is the
      input's; sorting one more element inserts it. */
  lemma SortNext<T>(s: seq<T>, key: T -> JsNumber, i: nat)
    requires i < |s|
    ensures SortDesc(s[..i + 1], key) == Insert(SortDesc(s[..i], key), s[i], key)
    ensures s[i..] == [s[i]] + s[i + 1..]
  {
    assert s[..i + 1][..i] == s[..i];
  }

  /** The array at the start of a pass: the sorted prefix, then the next
      element, then the rest of the input. */
  lemma NextElement<T>(cur: seq<T>, sorted: seq<T>, s: seq<T>, i: nat)
    requires |sorted| == i < |s| && cur == sorted + s[i..]
    ensures cur[..i] == sorted && cur[i] == s[i]
    ensures cur == sorted[..i] + [s[i]] + sorted[i..] + s[i + 1..]
  {
    assert s[i..] == [s[i]] + s[i + 1..];
    assert sorted[..i] == sorted && sorted[i..] == [];
  }

  /** Moving `x` one place left past an element it exceeds. */
  lemma InsertShift<T>(t: seq<T>, x: T, key: T -> JsNumber, j: nat)
    requires 0 < j <= |t| && Greater(key(x), key(t[j - 1]))
    ensures Insert(t[..j], x, key) + t[j..] == Insert(t[..j - 1], x, key) + t[j - 1..]
  {
    assert t[..j][..j - 1] == t[..j - 1];
    assert t[j - 1..] == [t[j - 1]] + t[j..];
  }

  /** The array after swapping `x` with its left neighbour. */
  lemma ShiftStep<T>(cur: seq<T>, t: seq<T>, x: T, rest: seq<T>, j: nat)
    requires 0 < j <= |t| && cur == t[..j] + [x] + t[j..] + rest
    ensures cur[j - 1] == t[j - 1] && cur[j] == x
    ensures cur[j := cur[j - 1]][j - 1 := x] == t[..j - 1] + [x] + t[j - 1..] + rest
  {
    assert t[..j] == t[..j - 1] + [t[j - 1]];
    assert t[j - 1..] == [t[j - 1]] + t[j..];
  }

  /** Where `x` stops, inserting it is appending it. */
  lemma InsertStop<T>(t: seq<T>, x: T, key: T -> JsNumber, j: nat)
    requires j <= |t| && (j == 0 || !Greater(key(x), key(t[j - 1])))
    ensures Insert(t[..j], x, key) + t[j..] == t[..j] + [x] + t[j..]
  {
  }

  /** Inserting keeps every element and adds `x`. */
  lemma {:induction false} InsertPermutes<T>(t: seq<T>, x: T, key: T -> JsNumber)
    ensures multiset(Insert(t, x, key)) == multiset(t) + multiset{x}
    decreases |t|
  {
    if t != [] && Greater(key(x), key(t[|t| - 1])) {
      InsertPermutes(t[..|t| - 1], x, key);
      assert t == t[..|t| - 1] + [t[|t| - 1]];
    }
  }

  /** The sort returns a permutation of its input. */
  lemma {:induction false} SortPermutes<T>(s: seq<T>, key: T -> JsNumber)
    ensures multiset(SortDesc(s, key)) == multiset(s)
    decreases |s|
  {
    if s != [] {
      SortPermutes(s[..|s| - 1], key);
      InsertPermutes(SortDesc(s[..|s| - 1], key), s[|s| - 1], key);
      assert s == s[..|s| - 1] + [s[|s| - 1]];
    }
  }

  lemma {:induction false} WithKeyAppend<T>(a: seq<T>, b: seq<T>, key: T -> JsNumber, k: JsNumber)
    ensures WithKey(a + b, key, k) == WithKey(a, key, k) + WithKey(b, key, k)
    decreases |b|
  {
    if b == [] {
      assert a + b == a;
    } else {
      WithKeyAppend(a, b[..|b| - 1], key, k);
      assert (a + b)[..|a + b| - 1] == a + b[..|b| - 1];
    }
  }

  /** Inserting moves `x` only past elements with a smaller key, so among
      the elements of any one key the order is that of `t + [x]`. */
  lemma {:induction false} InsertStable<T>(t: seq<T>, x: T, key: T -> JsNumber, k: JsNumber)
    ensures WithKey(Insert(t, x, key), key, k) == WithKey(t + [x], key, k)
    decreases |t|
  {
    if t != [] && Greater(key(x), key(t[|t| - 1])) {
      var p, last := t[..|t| - 1], t[|t| - 1];
      InsertStable(p, x, key, k);
      WithKeyAppend(Insert(p, x, key), [last], key, k);
      WithKeyAppend(p, [x], key, k);
      WithKeyAppend(p, [last], key, k);
      WithKeyAppend(t, [x], key, k);
      assert t == p + [last];
      if key(x) == k {
        assert key(last) != k;
      }
      assert WithKey([last], key, k) == (if key(last) == k then [last] else []) by {
        assert [last][..0] == [];
      }
      assert WithKey([x], key, k) == (if key(x) == k then [x] else []) by {
        assert [x][..0] == [];
      }
    }
  }

  /** The sort is stable: the elements of any one key keep their input order. */
  lemma {:induction false} SortStable<T>(s: seq<T>, key: T -> JsNumber, k: JsNumber)
    ensures WithKey(SortDesc(s, key), key, k) == WithKey(s, key, k)
    decreases |s|
  {
    if s != [] {
      var p := s[..|s| - 1];
      SortStable(p, key, k);
      InsertStable(SortDesc(p, key), s[|s| - 1], key, k);
      WithKeyAppend(SortDesc(p, key), [s[|s| - 1]], key, k);
      WithKeyAppend(p, [s[|s| - 1]], key, k);
      assert s == p + [s[|s| - 1]];
    }
  }

  /** Inserting into a sorted sequence of finite keys keeps it sorted. */
  lemma {:induction false} InsertSorted<T>(t: seq<T>, x: T, key: T -> JsNumber)
    requires SortedDesc(t, key) && FiniteKeys(t, key) && key(x).Fin?
    ensures SortedDesc(Insert(t, x, key), key)
    decreases |t|
  {
    if t != [] && Greater(key(x), key(t[|t| - 1])) {
      var p, last := t[..|t| - 1], t[|t| - 1];
      InsertSorted(p, x, key);
      InsertPermutes(p, x, key);
      var q := Insert(p, x, key);
      forall y | y in q ensures AtLeast(key(y), key(last)) {
        assert y in multiset(q);
        if y != x {
          assert y in multiset(p);
          var i :| 0 <= i < |p| && p[i] == y;
          assert t[i] == y;
        }
      }
      var r := q + [last];
      forall i, j | 0 <= i < j < |r| ensures AtLeast(key(r[i]), key(r[j])) {
        if j == |r| - 1 { assert r[i] in q; }
      }
    } else if t != [] {
      var r := t + [x];
      forall i, j | 0 <= i < j < |r| ensures AtLeast(key(r[i]), key(r[j])) {
        if j == |r| - 1 && i < |t| - 1 {
          assert AtLeast(key(t[i]), key(t[|t| - 1]));
        }
      }
    }
  }

  /** With finite keys the result is ordered by non-increasing key. */
  lemma {:induction false} SortSorted<T>(s: seq<T>, key: T -> JsNumber)
    requires FiniteKeys(s, key)
    ensures SortedDesc(SortDesc(s, key), key)
    decreases |s|
  {
    if s != [] {
      var p := s[..|s| - 1];
      SortSorted(p, key);
      SortPermutes(p, key);
      var t := SortDesc(p, key);
      forall i | 0 <= i < |t| ensures key(t[i]).Fin? {
        assert t[i] in multiset(p);
      }
      InsertSorted(t, s[|s| - 1], key);
    }
  }

  lemma {:induction false} WithKeyNone<T>(s: seq<T>, key: T -> JsNumber, k: JsNumber)
    requires forall j :: 0 <= j < |s| ==> key(s[j]) != k
    ensures WithKey(s, key, k) == []
    decreases |s|
  {
    if s != [] { WithKeyNone(s[..|s| - 1], key, k); }
  }

  /** The first element of key `k` heads the elements of key `k`. */
  lemma WithKeyHead<T>(s: seq<T>, key: T -> JsNumber, i: nat, k: JsNumber)
    requires i < |s| && key(s[i]) == k
    requires forall j :: 0 <= j < i ==> key(s[j]) != k
    ensures WithKey(s, key, k) != [] && WithKey(s, key, k)[0] == s[i]
  {
    WithKeyNone(s[..i], key, k);
    WithKeyAppend(s[..i], s[i..], key, k);
    WithKeyAppend([s[i]], s[i + 1..], key, k);
    assert s == s[..i] + s[i..];
    assert s[i..] == [s[i]] + s[i + 1..];
    assert WithKey([s[i]], key, k) == [s[i]] by {
      assert [s[i]][..0] == [];
    }
  }

  /** With finite keys the sort puts first the earliest element of greatest
      key. */
  lemma SortFirst<T>(s: seq<T>, key: T -> JsNumber, i: nat)
    requires FiniteKeys(s, key) && i < |s|
    requires forall j :: 0 <= j < |s| ==> AtLeast(key(s[i]), key(s[j]))
    requires forall j :: 0 <= j < i ==> key(s[j]) != key(s[i])
    ensures SortDesc(s, key)[0] == s[i]
  {
    var r := SortDesc(s, key);
    var k := key(s[i]);
    SortPermutes(s, key);
    SortSorted(s, key);
    assert r[0] in multiset(s);
    assert s[i] in multiset(r);
    var m :| 0 <= m < |r| && r[m] == s[i];
    assert AtLeast(key(r[0]), k) by {
      if m > 0 { assert AtLeast(key(r[0]), key(r[m])); }
    }
    var j0 :| 0 <= j0 < |s| && s[j0] == r[0];
    assert AtLeast(k, key(s[j0]));
    assert key(r[0]) == k;
    WithKeyHead(r, key, 0, k);
    WithKeyHead(s, key, i, k);
    SortStable(s, key, k);
  }
}
