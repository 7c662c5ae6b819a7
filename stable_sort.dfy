/** `Array.prototype.sort` with a numeric comparator `(a, b) => key(a) - key(b)`.
    The sort is stable (ECMAScript 2019), so it is modelled by a stable
    insertion sort; the lemmas below pin down exactly where it leaves the
    blocks of equal keys that the team partitioners produce. */
module StableSort {

  predicate SortedBy<T>(s: seq<T>, key: T -> real)
  {
    forall i, j :: 0 <= i < j < |s| ==> key(s[i]) <= key(s[j])
  }

  /** Every element of `s` has key `v`. */
  predicate AllKey<T>(s: seq<T>, key: T -> real, v: real)
  {
    forall i :: 0 <= i < |s| ==> key(s[i]) == v
  }

  lemma AllKeySorted<T>(s: seq<T>, key: T -> real, v: real)
    requires AllKey(s, key, v)
    ensures SortedBy(s, key)
  {
  }

  /** Place `x` just before the first element with a strictly larger key. */
  function Insert<T>(t: seq<T>, x: T, key: T -> real): (r: seq<T>)
    ensures |r| == |t| + 1
  {
    if t == [] then [x]
    else if key(t[0]) > key(x) then [x] + t
    else
      [t[0]] + Insert(t[1..], x, key)
  }

  /** Stable sort: insert the elements one by one, left to right. */
  function Sort<T>(s: seq<T>, key: T -> real): (r: seq<T>)
    ensures |r| == |s|
  {
    if s == [] then []
    else
      var n := |s|;
      Insert(Sort(s[..n - 1], key), s[n - 1], key)
  }

  lemma {:induction false} InsertPermutes<T>(t: seq<T>, x: T, key: T -> real)
    ensures multiset(Insert(t, x, key)) == multiset(t) + multiset{x}
    decreases |t|
  {
    if t != [] && key(t[0]) <= key(x) {
      InsertPermutes(t[1..], x, key);
      assert t == [t[0]] + t[1..];
    }
  }

  /** The sort only reorders. */
  lemma {:induction false} SortPermutes<T>(s: seq<T>, key: T -> real)
    ensures multiset(Sort(s, key)) == multiset(s)
    decreases |s|
  {
    if s != [] {
      var n := |s|;
      SortPermutes(s[..n - 1], key);
      InsertPermutes(Sort(s[..n - 1], key), s[n - 1], key);
      assert s == s[..n - 1] + [s[n - 1]];
    }
  }

  lemma SortUnfold<T>(s: seq<T>, key: T -> real)
    requires s != []
    ensures Sort(s, key) == Insert(Sort(s[..|s| - 1], key), s[|s| - 1], key)
  {
  }

  lemma {:induction false} InsertSorted<T>(t: seq<T>, x: T, key: T -> real)
    requires SortedBy(t, key)
    ensures SortedBy(Insert(t, x, key), key)
    decreases |t|
  {
    if t != [] && key(t[0]) <= key(x) {
      var tail := Insert(t[1..], x, key);
      InsertSorted(t[1..], x, key);
      InsertPermutes(t[1..], x, key);
      forall j | 0 <= j < |tail| ensures key(t[0]) <= key(tail[j]) {
        assert tail[j] in multiset(t[1..]) + multiset{x};
        if tail[j] != x {
          assert tail[j] in t[1..];
        }
      }
      assert Insert(t, x, key) == [t[0]] + tail;
    }
  }

  /** The result is in non-decreasing key order. */
  lemma {:induction false} SortSorted<T>(s: seq<T>, key: T -> real)
    ensures SortedBy(Sort(s, key), key)
    decreases |s|
  {
    if s != [] {
      SortSorted(s[..|s| - 1], key);
      InsertSorted(Sort(s[..|s| - 1], key), s[|s| - 1], key);
    }
  }

  /** Insertion lands after every element whose key does not exceed the
      new one's and before the first that does. */
  lemma {:induction false} InsertAt<T>(p: seq<T>, q: seq<T>, x: T, key: T -> real)
    requires forall i :: 0 <= i < |p| ==> key(p[i]) <= key(x)
    requires q != [] ==> key(q[0]) > key(x)
    ensures Insert(p + q, x, key) == p + [x] + q
    decreases |p|
  {
    if p == [] {
      assert p + q == q;
    } else {
      assert (p + q)[1..] == p[1..] + q;
      InsertAt(p[1..], q, x, key);
    }
  }

  /** A sequence that is already in order is left as it is. */
  lemma {:induction false} SortOfSorted<T>(s: seq<T>, key: T -> real)
    requires SortedBy(s, key)
    ensures Sort(s, key) == s
    decreases |s|
  {
    if s != [] {
      var n := |s|;
      var init := s[..n - 1];
      var x := s[n - 1];
      assert SortedBy(init, key) by {
        forall i, j | 0 <= i < j < |init| ensures key(init[i]) <= key(init[j]) {
          assert init[i] == s[i] && init[j] == s[j];
        }
      }
      SortOfSorted(init, key);
      forall i | 0 <= i < |init| ensures key(init[i]) <= key(x) {
        assert init[i] == s[i];
      }
      assert init + [] == init;
      InsertAt(init, [], x, key);
      SortUnfold(s, key);
      assert init + [x] + [] == s;
    }
  }

  /** Two blocks of equal keys, the second one smaller: the stable sort
      puts the second block first. */
  lemma {:induction false} SortTwoBlocks<T>(a: seq<T>, b: seq<T>, key: T -> real, va: real, vb: real)
    requires vb < va && AllKey(a, key, va) && AllKey(b, key, vb)
    ensures Sort(a + b, key) == b + a
    decreases |b|
  {
    var s := a + b;
    if b == [] {
      assert s == a && b + a == a;
      SortOfSorted(a, key);
    } else {
      var n := |b|;
      var init := b[..n - 1];
      assert s[..|s| - 1] == a + init && s[|s| - 1] == b[n - 1];
      SortTwoBlocks(a, init, key, va, vb);
      forall i | 0 <= i < |init| ensures key(init[i]) <= key(b[n - 1]) {
        assert init[i] == b[i];
      }
      InsertAt(init, a, b[n - 1], key);
      SortUnfold(s, key);
      assert init + [b[n - 1]] == b;
    }
  }

  /** Every key of `b + a + c` is at most `va`. */
  lemma KeysAtMost<T>(a: seq<T>, b: seq<T>, c: seq<T>, key: T -> real, va: real, vb: real)
    requires vb < va && AllKey(a, key, va) && AllKey(b, key, vb) && AllKey(c, key, va)
    ensures forall i :: 0 <= i < |b + a + c| ==> key((b + a + c)[i]) <= va
  {
    var r := b + a + c;
    forall i | 0 <= i < |r| ensures key(r[i]) <= va {
      if i < |b| {
        assert r[i] == b[i];
      } else if i < |b| + |a| {
        assert r[i] == a[i - |b|];
      } else {
        assert r[i] == c[i - |b| - |a|];
      }
    }
  }

  /** Three blocks of equal keys, the middle one smaller: the stable sort
      moves the middle block to the front and keeps the other two in order. */
  lemma {:induction false} SortBlocks<T>(a: seq<T>, b: seq<T>, c: seq<T>, key: T -> real, va: real, vb: real)
    requires vb < va && AllKey(a, key, va) && AllKey(b, key, vb) && AllKey(c, key, va)
    ensures Sort(a + b + c, key) == b + a + c
    decreases |c|
  {
    var s := a + b + c;
    if c == [] {
      assert s == a + b && b + a + c == b + a;
      SortTwoBlocks(a, b, key, va, vb);
    } else {
      var n := |c|;
      var init := c[..n - 1];
      var rest := b + a + init;
      assert s[..|s| - 1] == a + b + init && s[|s| - 1] == c[n - 1];
      SortBlocks(a, b, init, key, va, vb);
      assert AllKey(init, key, va);
      KeysAtMost(a, b, init, key, va, vb);
      assert rest + [] == rest;
      InsertAt(rest, [], c[n - 1], key);
      SortUnfold(s, key);
      assert rest + [c[n - 1]] + [] == b + a + c;
    }
  }
}
