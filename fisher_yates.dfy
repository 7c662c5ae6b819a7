/** The in-place Fisher–Yates shuffle (`shuffleArray`) that every semester
    bucket goes through before teams are formed. The random draws
    `Math.floor(Math.random() * (i + 1))` are an input: `js[i]` is the index
    drawn at step `i`, so `js[i] <= i` (entry 0 is never used). */
module FisherYates {

  /** `js` is a possible sequence of draws for an array of length `n`. */
  predicate ValidChoices(js: seq<nat>, n: nat)
  {
    |js| == n && forall i :: 0 <= i < n ==> js[i] <= i
  }

  function Swap<T>(s: seq<T>, i: nat, j: nat): (r: seq<T>)
    requires i < |s| && j < |s|
    ensures |r| == |s| && r[i] == s[j] && r[j] == s[i]
  {
    s[i := s[j]][j := s[i]]
  }

  lemma SwapPermutes<T>(s: seq<T>, i: nat, j: nat)
    requires i < |s| && j < |s|
    ensures multiset(Swap(s, i, j)) == multiset(s)
  {
    assert multiset(s[i := s[j]]) == multiset(s) - multiset{s[i]} + multiset{s[j]};
  }

  /** What the shuffle leaves in the array: step `i = n - 1` swaps the last
      slot with slot `js[n - 1]`, which fixes the last slot for good, and the
      remaining steps shuffle the prefix. */
  function Shuffled<T>(s: seq<T>, js: seq<nat>): (r: seq<T>)
    requires ValidChoices(js, |s|)
    ensures |r| == |s|
    decreases |s|
  {
    if |s| <= 1 then s
    else
      var i := |s| - 1;
      var t := Swap(s, i, js[i]);
      Shuffled(t[..i], js[..i]) + [t[i]]
  }

  /** One step of the definition, for callers that hold the draws of a
      longer array. */
  lemma ShuffledUnfold<T>(s: seq<T>, js: seq<nat>)
    requires ValidChoices(js, |s|) && |s| > 1
    ensures var i := |s| - 1;
      var u := Swap(s, i, js[i]);
      ValidChoices(js[..i], i) &&
      Shuffled(s, js) == Shuffled(u[..i], js[..i]) + [u[i]]
  {
  }

  lemma PrefixChoices(js: seq<nat>, n: nat, m: nat)
    requires ValidChoices(js, n) && m <= n
    ensures ValidChoices(js[..m], m)
  {
  }

  /** What the array will hold at the end, seen from a loop state with
      contents `c` and slots `0..i` still to shuffle. */
  ghost function Pending<T>(c: seq<T>, i: nat, js: seq<nat>): seq<T>
    requires i < |c| && ValidChoices(js, |c|)
  {
    PrefixChoices(js, |c|, i + 1);
    Shuffled(c[..i + 1], js[..i + 1]) + c[i + 1..]
  }

  /** One iteration of the loop: swapping slot `i` with slot `js[i]` and
      settling slot `i` leaves the final contents unchanged. */
  lemma ShuffleStep<T>(c: seq<T>, i: nat, js: seq<nat>)
    requires 0 < i < |c| && ValidChoices(js, |c|)
    ensures Pending(Swap(c, i, js[i]), i - 1, js) == Pending(c, i, js)
  {
    var j := js[i];
    var u := Swap(c, i, j);
    var s := c[..i + 1];
    PrefixChoices(js, |c|, i + 1);
    PrefixChoices(js, |c|, i);
    assert js[..i + 1][..i] == js[..i];
    ShuffledUnfold(s, js[..i + 1]);
    assert Swap(s, i, j) == u[..i + 1];
    assert u[..i + 1][..i] == u[..i];
    assert u[i..] == [u[i]] + c[i + 1..];
  }

  /** `shuffleArray`: for i from length-1 down to 1, swap a[i] with a[js[i]]. */
  method ShuffleArray<T>(a: array<T>, js: seq<nat>)
    requires ValidChoices(js, a.Length)
    modifies a
    ensures a[..] == Shuffled(old(a[..]), js)
  {
    if a.Length == 0 {
      return;
    }
    ghost var spec := Shuffled(a[..], js);
    var i := a.Length - 1;
    PendingStart(a[..], js);
    while i > 0
      invariant 0 <= i < a.Length
      invariant spec == Pending(a[..], i, js)
    {
      ghost var c := a[..];
      var j := js[i];
      ShuffleStep(c, i, js);
      a[i], a[j] := a[j], a[i];
      assert a[..] == Swap(c, i, j);
      i := i - 1;
    }
    PendingEnd(a[..], js);
  }

  /** Before the loop nothing is settled: the pending result is the shuffle. */
  lemma PendingStart<T>(c: seq<T>, js: seq<nat>)
    requires 0 < |c| && ValidChoices(js, |c|)
    ensures Pending(c, |c| - 1, js) == Shuffled(c, js)
  {
    assert c[..|c|] == c && js[..|c|] == js && c[|c|..] == [];
  }

  /** After the loop everything is settled: the pending result is the
      array itself. */
  lemma PendingEnd<T>(c: seq<T>, js: seq<nat>)
    requires 0 < |c| && ValidChoices(js, |c|)
    ensures Pending(c, 0, js) == c
  {
    assert c[..1] + c[1..] == c;
  }

  /** The shuffle only permutes: same length, same multiset. */
  lemma {:induction false} ShuffledPermutes<T>(s: seq<T>, js: seq<nat>)
    requires ValidChoices(js, |s|)
    ensures |Shuffled(s, js)| == |s|
    ensures multiset(Shuffled(s, js)) == multiset(s)
    decreases |s|
  {
    if |s| > 1 {
      var i := |s| - 1;
      var t := Swap(s, i, js[i]);
      ShuffledUnfold(s, js);
      ShuffledPermutes(t[..i], js[..i]);
      SwapPermutes(s, i, js[i]);
      SnocPermutes(Shuffled(s, js), Shuffled(t[..i], js[..i]), t);
    }
  }

  /** Appending the last element of `t` to a permutation of the rest of
      `t` gives a permutation of `t`. */
  lemma SnocPermutes<T>(r: seq<T>, p: seq<T>, t: seq<T>)
    requires t != [] && r == p + [t[|t| - 1]] && multiset(p) == multiset(t[..|t| - 1])
    ensures multiset(r) == multiset(t)
  {
    assert t == t[..|t| - 1] + [t[|t| - 1]];
  }

  /** Some slot of `s` holds the element `t` ends with; swapping it to the
      end leaves prefixes that are still permutations of each other. */
  lemma PickLast<T>(s: seq<T>, t: seq<T>) returns (j: nat)
    requires multiset(t) == multiset(s) && |s| > 0
    ensures |t| == |s| && j < |s| && s[j] == t[|t| - 1]
    ensures multiset(Swap(s, |s| - 1, j)[..|s| - 1]) == multiset(t[..|t| - 1])
  {
    SameLength(s, t);
    var n := |s|;
    j := IndexOf(s, t[n - 1]);
    SwapPermutes(s, n - 1, j);
    DropCommonLast(Swap(s, n - 1, j), t);
  }

  lemma SameLength<T>(s: seq<T>, t: seq<T>)
    requires multiset(t) == multiset(s)
    ensures |t| == |s|
  {
    assert |t| == |multiset(t)| == |multiset(s)| == |s|;
  }

  lemma IndexOf<T>(s: seq<T>, x: T) returns (j: nat)
    requires x in multiset(s)
    ensures j < |s| && s[j] == x
  {
    j :| 0 <= j < |s| && s[j] == x;
  }

  lemma DropCommonLast<T>(u: seq<T>, t: seq<T>)
    requires |u| == |t| > 0 && u[|u| - 1] == t[|t| - 1]
    requires multiset(u) == multiset(t)
    ensures multiset(u[..|u| - 1]) == multiset(t[..|t| - 1])
  {
    var n := |u|;
    assert u == u[..n - 1] + [u[n - 1]];
    assert t == t[..n - 1] + [t[n - 1]];
    assert multiset(u[..n - 1]) == multiset(u) - multiset{u[n - 1]};
    assert multiset(t[..n - 1]) == multiset(t) - multiset{t[n - 1]};
  }

  /** Draws that shuffle the prefix left by the swap, followed by the swap's
      own draw, shuffle the whole sequence. */
  lemma ExtendDraws<T>(s: seq<T>, t: seq<T>, j: nat, rest: seq<nat>)
    requires |s| == |t| > 1 && j < |s| && s[j] == t[|t| - 1]
    requires ValidChoices(rest, |s| - 1)
    requires Shuffled(Swap(s, |s| - 1, j)[..|s| - 1], rest) == t[..|t| - 1]
    ensures ValidChoices(rest + [j], |s|) && Shuffled(s, rest + [j]) == t
  {
    var n := |s|;
    assert ValidChoices(rest + [j], n) && Shuffled(s, rest + [j]) == t[..n - 1] + [t[n - 1]] by {
      ShuffledLastDraw(s, rest, j);
    }
    LastSplit(t);
  }

  lemma LastSplit<T>(t: seq<T>)
    requires t != []
    ensures t == t[..|t| - 1] + [t[|t| - 1]]
  {
  }

  /** The definition's step for draws written as the prefix's draws and
      the last draw. */
  lemma ShuffledLastDraw<T>(s: seq<T>, rest: seq<nat>, j: nat)
    requires |s| > 1 && j < |s| && ValidChoices(rest, |s| - 1)
    ensures ValidChoices(rest + [j], |s|)
    ensures var u := Swap(s, |s| - 1, j);
      Shuffled(s, rest + [j]) == Shuffled(u[..|s| - 1], rest) + [u[|s| - 1]]
  {
    var js := rest + [j];
    ExtendChoices(rest, j);
    assert js[..|s| - 1] == rest && js[|s| - 1] == j;
    ShuffledUnfold(s, js);
  }

  /** A draw at most the new last index extends valid draws. */
  lemma ExtendChoices(rest: seq<nat>, j: nat)
    requires ValidChoices(rest, |rest|) && j <= |rest|
    ensures ValidChoices(rest + [j], |rest| + 1)
  {
    var js := rest + [j];
    forall k | 0 <= k < |js|
      ensures js[k] <= k
    {
      if k < |rest| {
        assert js[k] == rest[k];
      }
    }
  }

  /** Every ordering of the bucket is reachable: for every permutation `t`
      of `s` there are valid draws that make the shuffle produce `t`. */
  lemma {:induction false} EveryPermutationReachable<T>(s: seq<T>, t: seq<T>) returns (js: seq<nat>)
    requires multiset(t) == multiset(s)
    ensures ValidChoices(js, |s|) && Shuffled(s, js) == t
    decreases |s|
  {
    if |s| == 0 {
      assert |t| == |multiset(t)| == 0;
      js := [];
    } else if |s| == 1 {
      var j := PickLast(s, t);
      assert t == [s[0]];
      js := [0];
    } else {
      var n := |s|;
      var j := PickLast(s, t);
      var rest := EveryPermutationReachable(Swap(s, n - 1, j)[..n - 1], t[..n - 1]);
      ExtendDraws(s, t, j, rest);
      js := rest + [j];
    }
  }

  predicate Distinct<T(==)>(s: seq<T>)
  {
    forall i, j :: 0 <= i < j < |s| ==> s[i] != s[j]
  }

  /** The last slot holds the element drawn at the first step; the rest is
      the shuffle of what the swap left in the prefix. */
  lemma ShuffledSplit<T>(s: seq<T>, js: seq<nat>)
    requires ValidChoices(js, |s|) && |s| > 1
    ensures var i := |s| - 1;
      var u := Swap(s, i, js[i]);
      ValidChoices(js[..i], i) &&
      Shuffled(s, js)[..i] == Shuffled(u[..i], js[..i]) &&
      Shuffled(s, js)[i] == s[js[i]]
  {
    var i := |s| - 1;
    var u := Swap(s, i, js[i]);
    ShuffledPermutes(u[..i], js[..i]);
    ShuffledUnfold(s, js);
  }

  lemma SwapKeepsDistinct<T>(s: seq<T>, i: nat, j: nat)
    requires i < |s| && j < |s| && Distinct(s)
    ensures Distinct(Swap(s, i, j))
  {
    var u := Swap(s, i, j);
    forall a, b | 0 <= a < b < |s| ensures u[a] != u[b] {
      var a' := if a == i then j else if a == j then i else a;
      var b' := if b == i then j else if b == j then i else b;
      assert u == s[i := s[j]][j := s[i]];
      assert u[a] == s[a'] && u[b] == s[b'] && a' != b';
    }
  }

  lemma PrefixDistinct<T>(s: seq<T>, i: nat)
    requires i <= |s| && Distinct(s)
    ensures Distinct(s[..i])
  {
  }

  /** Equal shuffles of distinct elements used the same last draw, and the
      earlier draws shuffle the swapped prefix alike. */
  lemma SameLastDraw<T>(s: seq<T>, js1: seq<nat>, js2: seq<nat>)
    requires Distinct(s) && |s| > 1
    requires ValidChoices(js1, |s|) && ValidChoices(js2, |s|)
    requires Shuffled(s, js1) == Shuffled(s, js2)
    ensures var i := |s| - 1;
      js1[i] == js2[i] && ValidChoices(js1[..i], i) && ValidChoices(js2[..i], i) &&
      Shuffled(Swap(s, i, js1[i])[..i], js1[..i]) == Shuffled(Swap(s, i, js1[i])[..i], js2[..i])
  {
    ShuffledSplit(s, js1);
    ShuffledSplit(s, js2);
  }

  /** On a bucket of distinct participants, different draws give different
      orderings. With `EveryPermutationReachable` this makes the draws and the
      orderings correspond one to one, so uniform draws give every ordering
      the same probability. */
  lemma {:induction false} DrawsDetermineOrdering<T>(s: seq<T>, js1: seq<nat>, js2: seq<nat>)
    requires Distinct(s)
    requires ValidChoices(js1, |s|) && ValidChoices(js2, |s|)
    requires Shuffled(s, js1) == Shuffled(s, js2)
    ensures js1 == js2
    decreases |s|
  {
    var n := |s|;
    if n == 1 {
      assert js1 == [0] == js2;
    } else if n > 1 {
      var i := n - 1;
      var u := Swap(s, i, js1[i]);
      SameLastDraw(s, js1, js2);
      SwapKeepsDistinct(s, i, js1[i]);
      PrefixDistinct(u, i);
      DrawsDetermineOrdering(u[..i], js1[..i], js2[..i]);
      LastSplit(js1);
      LastSplit(js2);
    }
  }
}
