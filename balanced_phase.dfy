/** The phase every partitioner starts with: the semester buckets are
    popped from the end, two First then two Third participants per team,
    for as many teams as both buckets allow. Shared definitions and facts
    about team lists live here too. */
module BalancedPhase {
  import opened Roster
  import FisherYates
  import StableSort

  /** The comparator `(a, b) => a.members.length - b.members.length`. */
  function SizeKey(t: Team): real { Size(t) as real }

  /** Team `i + 1` of the balanced phase: two pops from the end of the
      First bucket, then two from the end of the Third bucket. */
  function BalancedTeam(f: seq<Participant>, th: seq<Participant>, i: nat): Team
    requires 2 * i + 2 <= |f| && 2 * i + 2 <= |th|
  {
    Team(i + 1, [f[|f| - 1 - 2 * i], f[|f| - 2 - 2 * i], th[|th| - 1 - 2 * i], th[|th| - 2 - 2 * i]])
  }

  function Balanced(f: seq<Participant>, th: seq<Participant>, k: nat): (r: seq<Team>)
    requires 2 * k <= |f| && 2 * k <= |th|
    ensures |r| == k
  {
    seq(k, i requires 0 <= i < k => BalancedTeam(f, th, i))
  }

  function BalancedCount(f: nat, t: nat): nat
  {
    Min(f / 2, t / 2)
  }

  /** What is left in `[...firstSemester, ...thirdSemester]` after the
      balanced phase. */
  function Remaining(f: seq<Participant>, th: seq<Participant>): seq<Participant>
  {
    var k := BalancedCount(|f|, |th|);
    f[..|f| - 2 * k] + th[..|th| - 2 * k]
  }

  /** `team.members.push(p)`. */
  function Joined(t: Team, p: Participant): (r: Team)
    ensures r.id == t.id && Size(r) == Size(t) + 1
  {
    Team(t.id, t.members + [p])
  }

  method ToArray(s: seq<Participant>) returns (a: array<Participant>)
    ensures fresh(a) && a[..] == s
  {
    a := new Participant[|s|](i requires 0 <= i < |s| => s[i]);
  }

  /** The `for` loop: `maxTeams` balanced teams popped off the bucket ends. */
  method PopBalanced(f: seq<Participant>, th: seq<Participant>) returns (teams: seq<Team>, first: seq<Participant>, third: seq<Participant>)
    ensures var k := BalancedCount(|f|, |th|);
      teams == Balanced(f, th, k) && first + third == Remaining(f, th) &&
      first == f[..|f| - 2 * k] && third == th[..|th| - 2 * k]
  {
    first, third := f, th;
    teams := [];
    var maxTeams := Min(|first| / 2, |third| / 2);
    var i := 0;
    while i < maxTeams
      invariant 0 <= i <= maxTeams
      invariant first == f[..|f| - 2 * i] && third == th[..|th| - 2 * i]
      invariant teams == Balanced(f, th, i)
    {
      BalancedSnoc(f, th, i);
      var a := first[|first| - 1];
      first := first[..|first| - 1];
      var b := first[|first| - 1];
      first := first[..|first| - 1];
      var c := third[|third| - 1];
      third := third[..|third| - 1];
      var d := third[|third| - 1];
      third := third[..|third| - 1];
      teams := teams + [Team(i + 1, [a, b, c, d])];
      i := i + 1;
    }
  }

  lemma BalancedFull(f: seq<Participant>, th: seq<Participant>, k: nat)
    requires 2 * k <= |f| && 2 * k <= |th|
    ensures Full(Balanced(f, th, k))
  {
  }

  lemma BalancedSnoc(f: seq<Participant>, th: seq<Participant>, i: nat)
    requires 2 * i + 2 <= |f| && 2 * i + 2 <= |th|
    ensures Balanced(f, th, i + 1) == Balanced(f, th, i) + [BalancedTeam(f, th, i)]
  {
  }

  predicate Full(ts: seq<Team>)
  {
    forall i :: 0 <= i < |ts| ==> Size(ts[i]) == 4
  }

  lemma FullReversed(ts: seq<Team>)
    requires Full(ts)
    ensures Full(Reversed(ts))
  {
    forall i | 0 <= i < |ts| ensures Size(Reversed(ts)[i]) == 4 {
      ReversedAt(ts, i);
    }
  }

  /** The sort leaves a list of full teams as it is. */
  lemma ArrangeFull(ts: seq<Team>)
    requires Full(ts)
    ensures StableSort.Sort(ts, SizeKey) == ts
  {
    assert StableSort.AllKey(ts, SizeKey, 4.0);
    StableSort.AllKeySorted(ts, SizeKey, 4.0);
    StableSort.SortOfSorted(ts, SizeKey);
  }

  /** Flatten of a one-team list. */
  lemma FlattenSingle(x: Team)
    ensures Flatten([x]) == x.members
  {
    assert [x][..0] == [];
  }

  /** The balanced teams hold the last `2 * k` of each bucket. */
  lemma BalancedMembers(f: seq<Participant>, th: seq<Participant>, k: nat)
    requires 2 * k <= |f| && 2 * k <= |th|
    ensures multiset(Flatten(Balanced(f, th, k))) ==
      multiset(f[|f| - 2 * k..]) + multiset(th[|th| - 2 * k..])
  {
    FlattenBalanced(f, th, k);
    PoppedMembers(f, th, k, |f| - 2 * k, |th| - 2 * k);
  }

  /** The members of the first `k` balanced teams, team after team. */
  function Popped(f: seq<Participant>, th: seq<Participant>, k: nat): seq<Participant>
    requires 2 * k <= |f| && 2 * k <= |th|
  {
    if k == 0 then [] else Popped(f, th, k - 1) + BalancedTeam(f, th, k - 1).members
  }

  lemma {:induction false} FlattenBalanced(f: seq<Participant>, th: seq<Participant>, k: nat)
    requires 2 * k <= |f| && 2 * k <= |th|
    ensures Flatten(Balanced(f, th, k)) == Popped(f, th, k)
  {
    if k > 0 {
      FlattenBalanced(f, th, k - 1);
      BalancedSnoc(f, th, k - 1);
      FlattenConcat(Balanced(f, th, k - 1), [BalancedTeam(f, th, k - 1)]);
      FlattenSingle(BalancedTeam(f, th, k - 1));
    }
  }

  /** Each balanced team pops two more participants off each bucket: the
      first `k` teams hold the suffixes at `a` and `b`. */
  lemma {:induction false} PoppedMembers(f: seq<Participant>, th: seq<Participant>, k: nat, a: nat, b: nat)
    requires 2 * k <= |f| && 2 * k <= |th| && a == |f| - 2 * k && b == |th| - 2 * k
    ensures multiset(Popped(f, th, k)) == multiset(f[a..]) + multiset(th[b..])
  {
    if k == 0 {
      assert f[a..] == [] && th[b..] == [];
    } else {
      var n, a', b' := k - 1, a + 2, b + 2;
      PoppedMembers(f, th, n, a', b');
      PoppedLast(f, th, k, n, a, b);
      PoppedStep(Popped(f, th, k), Popped(f, th, n), f, th, a, b, a', b');
    }
  }

  /** The `k`-th balanced team adds the pairs at `a` and `b`. */
  lemma PoppedLast(f: seq<Participant>, th: seq<Participant>, k: nat, n: nat, a: nat, b: nat)
    requires 2 * k <= |f| && 2 * k <= |th| && k == n + 1 && a == |f| - 2 * k && b == |th| - 2 * k
    ensures multiset(Popped(f, th, k)) ==
      multiset(Popped(f, th, n)) + multiset([f[a + 1], f[a]] + [th[b + 1], th[b]])
  {
    assert Popped(f, th, k) == Popped(f, th, n) + BalancedTeam(f, th, n).members;
    BalancedTeamPairs(f, th, n, a, b);
  }

  /** Two more pops from each bucket, going from the suffixes at `a'` and
      `b'` to those at `a = a' - 2` and `b = b' - 2`, add the two popped
      participants of each. */
  lemma PoppedStep<T>(x: seq<T>, x0: seq<T>, f: seq<T>, th: seq<T>, a: nat, b: nat, a': nat, b': nat)
    requires a' == a + 2 && b' == b + 2 && a' <= |f| && b' <= |th|
    requires multiset(x) == multiset(x0) + multiset([f[a + 1], f[a]] + [th[b + 1], th[b]])
    requires multiset(x0) == multiset(f[a'..]) + multiset(th[b'..])
    ensures multiset(x) == multiset(f[a..]) + multiset(th[b..])
  {
    var pf, pt := [f[a + 1], f[a]], [th[b + 1], th[b]];
    assert multiset(pf + pt) == multiset(pf) + multiset(pt);
    PairBeforeSuffix(f, a, a');
    PairBeforeSuffix(th, b, b');
    AddFour(multiset(x), multiset(x0), multiset(pf), multiset(pt),
            multiset(f[a'..]), multiset(th[b'..]), multiset(f[a..]), multiset(th[b..]));
  }

  /** The two elements at `a` and `a + 1`, last first, and the rest. */
  lemma PairBeforeSuffix<T>(s: seq<T>, a: nat, a': nat)
    requires a' == a + 2 && a' <= |s|
    ensures multiset(s[a..]) == multiset([s[a + 1], s[a]]) + multiset(s[a'..])
  {
    assert s[a..] == [s[a], s[a + 1]] + s[a'..];
    assert multiset([s[a], s[a + 1]]) == multiset([s[a + 1], s[a]]);
  }

  /** Balanced team `i` is a pair from the First bucket then a pair from
      the Third bucket. */
  lemma BalancedTeamPairs(f: seq<Participant>, th: seq<Participant>, i: nat, a: nat, b: nat)
    requires 2 * i + 2 <= |f| && 2 * i + 2 <= |th|
    requires a == |f| - 2 * i - 2 && b == |th| - 2 * i - 2
    ensures BalancedTeam(f, th, i).members == [f[a + 1], f[a]] + [th[b + 1], th[b]]
  {
  }

  /** Four participants more on each side of an equation of multisets. */
  lemma AddFour<T>(x': multiset<T>, x: multiset<T>, p: multiset<T>, q: multiset<T>,
                   fs: multiset<T>, ts: multiset<T>, fs': multiset<T>, ts': multiset<T>)
    requires x' == x + p + q && x == fs + ts && fs' == p + fs && ts' == q + ts
    ensures x' == fs' + ts'
  {
  }

  lemma SplitMultiset<T>(s: seq<T>, m: nat)
    requires m <= |s|
    ensures multiset(s) == multiset(s[..m]) + multiset(s[m..])
  {
    assert s == s[..m] + s[m..];
  }

  /** A sum of three multisets, regrouped by bucket. */
  lemma Regroup<T>(whole: multiset<T>, bal: multiset<T>, rem: multiset<T>,
                   f1: multiset<T>, f2: multiset<T>, t1: multiset<T>, t2: multiset<T>)
    requires whole == bal + rem && bal == f2 + t2 && rem == f1 + t1
    ensures whole == (f1 + f2) + (t1 + t2)
  {
  }

  /** The ids of a team list, in list order. */
  function Ids(ts: seq<Team>): (r: seq<int>)
    ensures |r| == |ts| && forall i :: 0 <= i < |ts| ==> r[i] == ts[i].id
  {
    seq(|ts|, i requires 0 <= i < |ts| => ts[i].id)
  }

  lemma IdsConcat(a: seq<Team>, b: seq<Team>)
    ensures Ids(a + b) == Ids(a) + Ids(b)
  {
  }

  /** The ids `1, 2, ..., n`. */
  function Iota(n: nat): (r: seq<int>)
    ensures |r| == n && forall i :: 0 <= i < n ==> r[i] == i + 1
  {
    seq(n, i => i + 1)
  }

  lemma IdsReversed(ts: seq<Team>)
    ensures multiset(Ids(Reversed(ts))) == multiset(Ids(ts))
  {
    var a, b := Ids(Reversed(ts)), Reversed(Ids(ts));
    forall i | 0 <= i < |ts| ensures a[i] == b[i] {
      ReversedAt(ts, i);
      ReversedAt(Ids(ts), i);
    }
    assert a == b;
    ReversedPermutes(Ids(ts));
  }

  /** A shuffled bucket holds only what the bucket held. */
  lemma ShuffledWithin(s: seq<Participant>, js: seq<nat>, sem: Semester)
    requires FisherYates.ValidChoices(js, |s|)
    requires forall p :: p in s ==> p.semester == sem
    ensures forall p :: p in FisherYates.Shuffled(s, js) ==> p.semester == sem
  {
    FisherYates.ShuffledPermutes(s, js);
    forall p | p in FisherYates.Shuffled(s, js) ensures p.semester == sem {
      assert p in multiset(FisherYates.Shuffled(s, js));
    }
  }

  /** The shuffled buckets of a roster that the split accepts: between them
      they hold the roster, each only its own semester, as many as
      `teamStats` counts. */
  lemma ShuffledBuckets(ps: seq<Participant>, jsFirst: seq<nat>, jsThird: seq<nat>)
      returns (f: seq<Participant>, th: seq<Participant>)
    requires FisherYates.ValidChoices(jsFirst, |OfSemester(ps, First)|)
    requires FisherYates.ValidChoices(jsThird, |OfSemester(ps, Third)|)
    requires SplitBySemester(ps).Ok?
    ensures f == FisherYates.Shuffled(SplitBySemester(ps).value.0, jsFirst)
    ensures th == FisherYates.Shuffled(SplitBySemester(ps).value.1, jsThird)
    ensures multiset(f) + multiset(th) == multiset(ps)
    ensures |f| == TeamStats(ps).firstCount && |th| == TeamStats(ps).thirdCount && |f| + |th| == |ps|
    ensures (forall p :: p in f ==> p.semester == First) && (forall p :: p in th ==> p.semester == Third)
  {
    var b := SplitBySemester(ps).value;
    f := FisherYates.Shuffled(b.0, jsFirst);
    th := FisherYates.Shuffled(b.1, jsThird);
    FisherYates.ShuffledPermutes(b.0, jsFirst);
    FisherYates.ShuffledPermutes(b.1, jsThird);
    StatsMatchBuckets(ps);
    ShuffledWithin(b.0, jsFirst, First);
    ShuffledWithin(b.1, jsThird, Third);
  }

  /** The balanced teams and the leftovers share out both buckets. */
  lemma BalancedPlusRemaining(f: seq<Participant>, th: seq<Participant>)
    ensures var k := BalancedCount(|f|, |th|);
      multiset(Flatten(Balanced(f, th, k))) + multiset(Remaining(f, th)) == multiset(f) + multiset(th) &&
      |Remaining(f, th)| == |f| + |th| - 4 * k
  {
    var k := BalancedCount(|f|, |th|);
    BalancedCountFits(|f|, |th|);
    var a, b := |f| - 2 * k, |th| - 2 * k;
    var taken := Flatten(Balanced(f, th, k));
    assert Remaining(f, th) == f[..a] + th[..b];
    assert multiset(taken) == multiset(f[a..]) + multiset(th[b..]) by {
      BalancedMembers(f, th, k);
    }
    ShareBuckets(f, th, a, b, taken);
  }

  lemma BalancedCountFits(f: nat, t: nat)
    ensures 2 * BalancedCount(f, t) <= f && 2 * BalancedCount(f, t) <= t
  {
  }

  lemma ShareBuckets<T>(f: seq<T>, th: seq<T>, a: nat, b: nat, taken: seq<T>)
    requires a <= |f| && b <= |th| && multiset(taken) == multiset(f[a..]) + multiset(th[b..])
    ensures multiset(taken) + multiset(f[..a] + th[..b]) == multiset(f) + multiset(th)
    ensures |f[..a] + th[..b]| == a + b
  {
    SplitMultiset(f, a);
    SplitMultiset(th, b);
  }
}
