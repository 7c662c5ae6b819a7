/** What `finalizeTeams` of FInalTeamForm guarantees: when it throws,
    that it places everyone exactly once, team sizes three to five, ids
    `1..n`, and that the one or two participants left over join the
    smallest teams. */
module TriplesFacts {
  import opened Roster
  import FisherYates
  import StableSort
  import opened BalancedPhase
  import opened TriplesPartition

  /** The suffix three longer holds the three elements before the suffix. */
  lemma ThreeMoreFromEnd<T>(s: seq<T>, n: nat)
    requires n + 3 <= |s|
    ensures multiset(s[|s| - n - 3..]) ==
      multiset{s[|s| - n - 3], s[|s| - n - 2], s[|s| - n - 1]} + multiset(s[|s| - n..])
  {
    var a := |s| - n - 3;
    assert s[a..] == [s[a], s[a + 1], s[a + 2]] + s[a + 3..];
  }

  /** The triples hold the last `3 * m` leftovers. */
  lemma {:induction false} TriplesMembers(u: seq<Participant>, k: nat, m: nat)
    requires 3 * m <= |u|
    ensures multiset(Flatten(Triples(u, k, m))) == multiset(u[|u| - 3 * m..])
    decreases m
  {
    if m == 0 {
      assert u[|u|..] == [];
    } else {
      var i := m - 1;
      var n := 3 * i;
      assert |u| - 3 * m == |u| - n - 3;
      TriplesMembers(u, k, i);
      FlattenTriplesSnoc(u, k, i);
      ThreeMoreFromEnd(u, n);
    }
  }

  lemma FlattenTriplesSnoc(u: seq<Participant>, k: nat, i: nat)
    requires 3 * i + 3 <= |u|
    ensures multiset(Flatten(Triples(u, k, i + 1))) == multiset(Flatten(Triples(u, k, i))) +
      multiset{u[|u| - 3 * i - 3], u[|u| - 3 * i - 2], u[|u| - 3 * i - 1]}
  {
    TriplesSnoc(u, k, i);
    var b := Triples(u, k, i + 1);
    assert b[..|b| - 1] == Triples(u, k, i);
  }

  lemma FlattenThree(a: seq<Team>, b: seq<Team>, c: seq<Team>)
    ensures Flatten(a + b + c) == Flatten(a) + Flatten(b) + Flatten(c)
  {
    FlattenConcat(a + b, c);
    FlattenConcat(a, b);
  }

  lemma JoinedAtMembers(ts: seq<Team>, i: nat, p: Participant)
    requires i < |ts|
    ensures multiset(Flatten(ts[i := Joined(ts[i], p)])) == multiset(Flatten(ts)) + multiset{p}
  {
    var pre, post := ts[..i], ts[i + 1..];
    var t := ts[i];
    var t' := Joined(t, p);
    assert Flatten(ts) == Flatten(pre) + t.members + Flatten(post) by {
      assert ts == pre + [t] + post;
      FlattenThree(pre, [t], post);
      FlattenSingle(t);
    }
    assert Flatten(ts[i := t']) == Flatten(pre) + (t.members + [p]) + Flatten(post) by {
      assert ts[i := t'] == pre + [t'] + post;
      FlattenThree(pre, [t'], post);
      FlattenSingle(t');
    }
  }

  /** Pushing a participant onto team `i` adds that participant and no one
      else, and changes no id. */
  lemma JoinedAt(ts: seq<Team>, i: nat, p: Participant)
    requires i < |ts|
    ensures multiset(Flatten(ts[i := Joined(ts[i], p)])) == multiset(Flatten(ts)) + multiset{p}
    ensures Ids(ts[i := Joined(ts[i], p)]) == Ids(ts)
  {
    JoinedAtMembers(ts, i, p);
  }

  /** Step 3 places exactly the participants left over and keeps the ids. */
  lemma TopUpMembers(ts: seq<Team>, rest: seq<Participant>)
    requires 1 <= |rest| <= 2 && TopUp(ts, rest).Ok?
    ensures multiset(Flatten(TopUp(ts, rest).value)) == multiset(Flatten(ts)) + multiset(rest)
    ensures Ids(TopUp(ts, rest).value) == Ids(ts)
  {
    if |rest| == 1 {
      assert rest == [rest[0]];
      TopUpOne(ts, rest[0]);
    } else {
      assert rest == [rest[0], rest[1]];
      TopUpTwo(ts, rest[0], rest[1]);
    }
  }

  lemma TopUpOne(ts: seq<Team>, p: Participant)
    requires 1 <= |ts|
    ensures TopUp(ts, [p]).Ok?
    ensures multiset(Flatten(TopUp(ts, [p]).value)) == multiset(Flatten(ts)) + multiset([p])
    ensures Ids(TopUp(ts, [p]).value) == Ids(ts)
  {
    JoinedAt(ts, 0, p);
  }

  lemma TopUpTwo(ts: seq<Team>, p0: Participant, p1: Participant)
    requires 2 <= |ts|
    ensures TopUp(ts, [p0, p1]).Ok?
    ensures multiset(Flatten(TopUp(ts, [p0, p1]).value)) == multiset(Flatten(ts)) + multiset([p0, p1])
    ensures Ids(TopUp(ts, [p0, p1]).value) == Ids(ts)
  {
    JoinedTwice(ts, p1, p0);
    assert multiset([p0, p1]) == multiset{p1, p0};
  }

  lemma AddTwo<T>(x: multiset<T>, y: multiset<T>, z: multiset<T>, p1: T, p2: T)
    requires y == x + multiset{p1} && z == y + multiset{p2}
    ensures z == x + multiset{p1, p2}
  {
  }

  lemma JoinedTwice(ts: seq<Team>, p1: Participant, p2: Participant)
    requires 2 <= |ts|
    ensures var once := ts[0 := Joined(ts[0], p1)];
      var twice := once[1 := Joined(ts[1], p2)];
      multiset(Flatten(twice)) == multiset(Flatten(ts)) + multiset{p1, p2} && Ids(twice) == Ids(ts)
  {
    var once := ts[0 := Joined(ts[0], p1)];
    var twice := once[1 := Joined(ts[1], p2)];
    assert once[1] == ts[1];
    JoinedAt(ts, 0, p1);
    JoinedAt(once, 1, p2);
    AddTwo(multiset(Flatten(ts)), multiset(Flatten(once)), multiset(Flatten(twice)), p1, p2);
  }

  /** The balanced teams and the triples hold everything but the one or
      two participants left over. */
  lemma TeamsBeforeTopUp(f: seq<Participant>, th: seq<Participant>)
    ensures var k := BalancedCount(|f|, |th|);
      var u := Remaining(f, th);
      var m := TripleCount(|u|);
      multiset(Flatten(Balanced(f, th, k) + Triples(u, k, m))) + multiset(u[..|u| - 3 * m]) ==
        multiset(f) + multiset(th)
  {
    var k := BalancedCount(|f|, |th|);
    var u := Remaining(f, th);
    var m := TripleCount(|u|);
    BalancedPlusRemaining(f, th);
    TriplesMembers(u, k, m);
    SplitMultiset(u, |u| - 3 * m);
    FlattenConcat(Balanced(f, th, k), Triples(u, k, m));
  }

  /** Everyone from both buckets ends up in exactly one team. */
  lemma FinalizedMembers(f: seq<Participant>, th: seq<Participant>)
    requires Finalized(f, th).Ok?
    ensures multiset(Flatten(Finalized(f, th).value)) == multiset(f) + multiset(th)
  {
    var k := BalancedCount(|f|, |th|);
    var u := Remaining(f, th);
    var m := TripleCount(|u|);
    var bal, tri := Balanced(f, th, k), Triples(u, k, m);
    var rest := u[..|u| - 3 * m];
    TeamsBeforeTopUp(f, th);
    if rest != [] {
      TopUpMembers(tri + bal, rest);
      FlattenConcat(bal, tri);
      FlattenConcat(tri, bal);
    }
  }

  /** The ids before step 3 are `1..k + m` in creation order. */
  lemma IdsBeforeTopUp(f: seq<Participant>, th: seq<Participant>)
    ensures var k := BalancedCount(|f|, |th|);
      var u := Remaining(f, th);
      var m := TripleCount(|u|);
      Ids(Balanced(f, th, k) + Triples(u, k, m)) == Iota(k + m) &&
      multiset(Ids(Triples(u, k, m) + Balanced(f, th, k))) == multiset(Iota(k + m))
  {
    var k := BalancedCount(|f|, |th|);
    var u := Remaining(f, th);
    var m := TripleCount(|u|);
    var bal, tri := Balanced(f, th, k), Triples(u, k, m);
    IdsConcat(bal, tri);
    IdsConcat(tri, bal);
    assert Ids(bal + tri) == Iota(k + m);
  }

  /** Which runs of step 3 throw: one participant left and no team at all
      reads `teams[0]`; two left and fewer than two teams reads `teams[1]`
      (or `teams[0]`) of nothing. `n` counts the leftovers after the
      balanced phase. */
  lemma FinalizedOutcome(f: seq<Participant>, th: seq<Participant>)
    ensures var k := BalancedCount(|f|, |th|);
      var n := |f| + |th| - 4 * k;
      var r := Finalized(f, th);
      (r.Crash? <==> (n == 1 && k == 0) || (n == 2 && k <= 1) || (n == 5 && k == 0)) &&
      ((n == 1 || n == 2) && k == 0 ==> r == Crash(NoTeamAt(0))) &&
      ((n == 5 && k == 0) || (n == 2 && k == 1) ==> r == Crash(NoTeamAt(1)))
  {
    var k := BalancedCount(|f|, |th|);
    var u := Remaining(f, th);
    var m := TripleCount(|u|);
    BalancedPlusRemaining(f, th);
    var n := |u|;
    var rest := u[..|u| - 3 * m];
    var ts := Triples(u, k, m) + Balanced(f, th, k);
    assert |ts| == k + m;
    if rest != [] {
      assert Finalized(f, th) == TopUp(ts, rest);
      assert (|rest| == 1 && k + m == 0) <==> (n == 1 && k == 0);
      assert (|rest| == 2 && k + m == 0) <==> (n == 2 && k == 0);
      assert (|rest| == 2 && k + m == 1) <==> (n == 5 && k == 0) || (n == 2 && k == 1);
    } else {
      assert n % 3 == 0;
    }
  }

  /** Every team has three to five members; there are `k` balanced teams
      and `m` triples; the participants left over join the teams that were
      smallest at that moment, so each team that grew was no bigger than
      any team that did not. */
  lemma FinalizedShape(f: seq<Participant>, th: seq<Participant>)
    requires Finalized(f, th).Ok?
    ensures var ts := Finalized(f, th).value;
      var k := BalancedCount(|f|, |th|);
      var n := |Remaining(f, th)|;
      |ts| == k + TripleCount(n) &&
      (forall i :: 0 <= i < |ts| ==> 3 <= Size(ts[i]) <= 5) &&
      (forall i, j :: 0 <= i < n % 3 <= j < |ts| ==> Size(ts[i]) - 1 <= Size(ts[j]))
  {
    var k := BalancedCount(|f|, |th|);
    var u := Remaining(f, th);
    var m := TripleCount(|u|);
    var bal, tri := Balanced(f, th, k), Triples(u, k, m);
    var rest := u[..|u| - 3 * m];
    BalancedCountFits(|f|, |th|);
    BalancedFull(f, th, k);
    TriplesSized(u, k, m);
    if rest != [] {
      assert Finalized(f, th) == TopUp(tri + bal, rest);
      SizesAscending(tri, bal);
      TopUpShape(tri + bal, rest);
    } else {
      assert Finalized(f, th) == Ok(bal + tri);
      SizesAscending(bal, tri);
    }
  }

  /** Teams of three followed by teams of four, in ascending order of size. */
  lemma SizesAscending(a: seq<Team>, b: seq<Team>)
    requires (StableSort.AllKey(a, SizeKey, 3.0) && Full(b)) || (Full(a) && StableSort.AllKey(b, SizeKey, 3.0))
    ensures forall i :: 0 <= i < |a + b| ==> 3 <= Size((a + b)[i]) <= 4
    ensures StableSort.AllKey(a, SizeKey, 3.0) ==> StableSort.SortedBy(a + b, SizeKey)
  {
  }

  /** Step 3 on a list in ascending order of size: the teams at the front
      grow by one, the rest stay as they were. */
  lemma TopUpShape(ts: seq<Team>, rest: seq<Participant>)
    requires 1 <= |rest| <= 2 && TopUp(ts, rest).Ok?
    requires StableSort.SortedBy(ts, SizeKey) && forall i :: 0 <= i < |ts| ==> 3 <= Size(ts[i]) <= 4
    ensures var r := TopUp(ts, rest).value;
      |r| == |ts| &&
      (forall i :: 0 <= i < |r| ==> 3 <= Size(r[i]) <= 5) &&
      (forall i, j :: 0 <= i < |rest| <= j < |r| ==> Size(r[i]) - 1 <= Size(r[j]))
  {
    var r := TopUp(ts, rest).value;
    assert forall i :: 0 <= i < |rest| ==> Size(r[i]) == Size(ts[i]) + 1;
    assert forall j :: |rest| <= j < |r| ==> r[j] == ts[j];
  }

  /** The ids are exactly `1..n`, in creation order when nothing was left
      over for step 3. */
  lemma FinalizedIds(f: seq<Participant>, th: seq<Participant>)
    requires Finalized(f, th).Ok?
    ensures var ts := Finalized(f, th).value;
      multiset(Ids(ts)) == multiset(Iota(|ts|)) &&
      (|Remaining(f, th)| % 3 == 0 ==> Ids(ts) == Iota(|ts|))
  {
    var k := BalancedCount(|f|, |th|);
    var u := Remaining(f, th);
    var m := TripleCount(|u|);
    var bal, tri := Balanced(f, th, k), Triples(u, k, m);
    var rest := u[..|u| - 3 * m];
    IdsBeforeTopUp(f, th);
    LeftAfterTriples(|u|);
    IdsAfterTopUp(Finalized(f, th), bal, tri, rest, k + m);
  }

  /** Both outcomes of step 3, on ids: without leftovers the creation order
      stays; with them, the ids are still `1..n` once each. */
  lemma IdsAfterTopUp(r: Result<seq<Team>>, bal: seq<Team>, tri: seq<Team>, rest: seq<Participant>, n: nat)
    requires |rest| <= 2 && r.Ok?
    requires rest == [] ==> r == Ok(bal + tri)
    requires rest != [] ==> r == TopUp(tri + bal, rest)
    requires Ids(bal + tri) == Iota(n) && multiset(Ids(tri + bal)) == multiset(Iota(n))
    ensures multiset(Ids(r.value)) == multiset(Iota(|r.value|))
    ensures rest == [] ==> Ids(r.value) == Iota(|r.value|)
  {
    if rest != [] {
      TopUpIds(tri + bal, rest, n);
    }
  }

  /** The triples leave `n % 3` participants. */
  lemma LeftAfterTriples(n: nat)
    ensures n - 3 * TripleCount(n) == n % 3
  {
  }

  lemma TopUpIds(ts: seq<Team>, rest: seq<Participant>, n: nat)
    requires 1 <= |rest| <= 2 && TopUp(ts, rest).Ok?
    requires multiset(Ids(ts)) == multiset(Iota(n))
    ensures multiset(Ids(TopUp(ts, rest).value)) == multiset(Iota(|TopUp(ts, rest).value|))
  {
    TopUpMembers(ts, rest);
    assert |Ids(ts)| == |multiset(Iota(n))| == n;
  }

  /** A successful run, unfolded into the two shuffled buckets. */
  lemma OkBuckets(ps: seq<Participant>, jsFirst: seq<nat>, jsThird: seq<nat>)
      returns (f: seq<Participant>, th: seq<Participant>)
    requires FisherYates.ValidChoices(jsFirst, |OfSemester(ps, First)|)
    requires FisherYates.ValidChoices(jsThird, |OfSemester(ps, Third)|)
    requires Partition(ps, jsFirst, jsThird).Ok?
    ensures Partition(ps, jsFirst, jsThird) == Finalized(f, th)
    ensures multiset(f) + multiset(th) == multiset(ps)
    ensures |f| == TeamStats(ps).firstCount && |th| == TeamStats(ps).thirdCount && |f| + |th| == |ps|
  {
    f, th := ShuffledBuckets(ps, jsFirst, jsThird);
  }

  /** When the whole run throws. A participant of another semester makes the
      split throw. Otherwise, with `k` balanced teams, it throws exactly when
      the roster has one or two participants, or five with no balanced team
      (five First-semester participants, say), or six with one. */
  lemma PartitionOutcome(ps: seq<Participant>, jsFirst: seq<nat>, jsThird: seq<nat>)
    requires FisherYates.ValidChoices(jsFirst, |OfSemester(ps, First)|)
    requires FisherYates.ValidChoices(jsThird, |OfSemester(ps, Third)|)
    ensures var r := Partition(ps, jsFirst, jsThird);
      var st := TeamStats(ps);
      var k := BalancedCount(st.firstCount, st.thirdCount);
      var n := |ps|;
      (r.Crash? <==> FirstOther(ps).Some? || n == 1 || n == 2 || (n == 5 && k == 0) || (n == 6 && k == 1)) &&
      (FirstOther(ps).Some? ==> r == Crash(UnknownSemester(FirstOther(ps).value.semester.text))) &&
      (FirstOther(ps).None? && (n == 1 || n == 2) ==> r == Crash(NoTeamAt(0))) &&
      (FirstOther(ps).None? && ((n == 5 && k == 0) || (n == 6 && k == 1)) ==> r == Crash(NoTeamAt(1)))
  {
    if SplitBySemester(ps).Ok? {
      var f, th := ShuffledBuckets(ps, jsFirst, jsThird);
      assert Partition(ps, jsFirst, jsThird) == Finalized(f, th);
      FinalizedOutcome(f, th);
      CrashCounts(|f|, |th|);
    }
  }

  /** The leftover counts of `FinalizedOutcome` in terms of the roster size. */
  lemma CrashCounts(a: nat, b: nat)
    ensures var k := BalancedCount(a, b);
      var n := a + b - 4 * k;
      ((n == 1 && k == 0) <==> a + b == 1) &&
      ((n == 2 && k == 0) <==> a + b == 2) &&
      ((n == 2 && k == 1) <==> (a + b == 6 && k == 1)) &&
      ((n == 5 && k == 0) <==> (a + b == 5 && k == 0))
  {
    BalancedCountFits(a, b);
  }

  /** Every participant ends up in exactly one team. */
  lemma PartitionMembers(ps: seq<Participant>, jsFirst: seq<nat>, jsThird: seq<nat>)
    requires FisherYates.ValidChoices(jsFirst, |OfSemester(ps, First)|)
    requires FisherYates.ValidChoices(jsThird, |OfSemester(ps, Third)|)
    requires Partition(ps, jsFirst, jsThird).Ok?
    ensures multiset(Flatten(Partition(ps, jsFirst, jsThird).value)) == multiset(ps)
  {
    var f, th := OkBuckets(ps, jsFirst, jsThird);
    FinalizedMembers(f, th);
  }

  /** `k` balanced teams and `(|ps| - 4k) / 3` more; three to five members
      each, no team of two. */
  lemma PartitionShape(ps: seq<Participant>, jsFirst: seq<nat>, jsThird: seq<nat>)
    requires FisherYates.ValidChoices(jsFirst, |OfSemester(ps, First)|)
    requires FisherYates.ValidChoices(jsThird, |OfSemester(ps, Third)|)
    requires Partition(ps, jsFirst, jsThird).Ok?
    ensures var ts := Partition(ps, jsFirst, jsThird).value;
      var st := TeamStats(ps);
      var k := BalancedCount(st.firstCount, st.thirdCount);
      4 * k <= |ps| && |ts| == k + (|ps| - 4 * k) / 3 &&
      (forall i :: 0 <= i < |ts| ==> 3 <= Size(ts[i]) <= 5) &&
      (forall i, j :: 0 <= i < (|ps| - 4 * k) % 3 <= j < |ts| ==> Size(ts[i]) - 1 <= Size(ts[j]))
  {
    var f, th := OkBuckets(ps, jsFirst, jsThird);
    BalancedPlusRemaining(f, th);
    FinalizedShape(f, th);
  }

  /** The team ids are `1..n` with none repeated or skipped. */
  lemma PartitionIds(ps: seq<Participant>, jsFirst: seq<nat>, jsThird: seq<nat>)
    requires FisherYates.ValidChoices(jsFirst, |OfSemester(ps, First)|)
    requires FisherYates.ValidChoices(jsThird, |OfSemester(ps, Third)|)
    requires Partition(ps, jsFirst, jsThird).Ok?
    ensures var ts := Partition(ps, jsFirst, jsThird).value;
      multiset(Ids(ts)) == multiset(Iota(|ts|))
  {
    var f, th := OkBuckets(ps, jsFirst, jsThird);
    FinalizedIds(f, th);
  }
}
