/** What the cap-4 partitioner guarantees about the teams it returns. */
module CapFourFacts {
  import opened Roster
  import FisherYates
  import StableSort
  import opened CapFourPartition
  import opened BalancedPhase

  /** The leftover teams in creation order hold the pop order `q` front to
      back; their ids follow the balanced ones; all but the newest are full. */
  lemma {:induction false} GroupsFacts(k: nat, q: seq<Participant>)
    requires q != []
    ensures var g := LeftoverGroups(k, q);
      Flatten(g.0) + g.1.members == q &&
      (forall j :: 0 <= j < |g.0| ==> g.0[j].id == k + j + 1) &&
      g.1.id == k + |g.0| + 1 &&
      4 * |g.0| + Size(g.1) == |q|
    decreases |q|
  {
    GroupsShape(k, q);
    if |q| > 1 {
      var init := q[..|q| - 1];
      var p := q[|q| - 1];
      GroupsFacts(k, init);
      var h := LeftoverGroups(k, init);
      GroupsShape(k, init);
      assert q == init + [p];
      if Size(h.1) == 4 {
        var older := h.0 + [h.1];
        assert older[..|older| - 1] == h.0;
        assert Flatten(older) == Flatten(h.0) + h.1.members;
      }
    }
  }

  /** The arrangement holds exactly the members of its three parts. */
  lemma ArrangementMembers(bal: seq<Team>, older: seq<Team>, x: Team)
    ensures multiset(Flatten(Arrangement(bal, older, x))) ==
      multiset(Flatten(bal)) + multiset(Flatten(older)) + multiset(x.members)
  {
    var r := Reversed(older);
    var arr := Arrangement(bal, older, x);
    assert multiset(Flatten(r)) == multiset(Flatten(older)) by { FlattenReversed(older); }
    if Size(x) == 1 {
      assert arr == (r + bal) + [x];
      assert Flatten(arr) == Flatten(r) + Flatten(bal) + x.members by {
        FlattenConcat(r + bal, [x]);
        FlattenConcat(r, bal);
        FlattenSingle(x);
      }
    } else {
      assert arr == [x] + (r + bal);
      assert Flatten(arr) == x.members + (Flatten(r) + Flatten(bal)) by {
        FlattenCons(x, r + bal);
        FlattenConcat(r, bal);
      }
    }
  }

  /** Placing the leftovers adds exactly them to the balanced teams. */
  lemma PlacedMembers(bal: seq<Team>, k: nat, q: seq<Participant>)
    ensures multiset(Flatten(Placed(bal, k, q))) == multiset(Flatten(bal)) + multiset(q)
  {
    if q != [] {
      var g := LeftoverGroups(k, q);
      GroupsFacts(k, q);
      ArrangementMembers(bal, g.0, g.1);
    }
  }

  /** Every participant of both buckets lands in exactly one team. */
  lemma FinalTeamsMembers(f: seq<Participant>, th: seq<Participant>)
    ensures multiset(Flatten(FinalTeams(f, th))) == multiset(f) + multiset(th)
  {
    var k := BalancedCount(|f|, |th|);
    var a, b := |f| - 2 * k, |th| - 2 * k;
    var rem := Remaining(f, th);
    var bal := Balanced(f, th, k);
    assert rem == f[..a] + th[..b];
    assert FinalTeams(f, th) == Placed(bal, k, Reversed(rem));
    assert multiset(Flatten(FinalTeams(f, th))) == multiset(Flatten(bal)) + multiset(rem) by {
      PlacedMembers(bal, k, Reversed(rem));
      ReversedPermutes(rem);
    }
    assert multiset(Flatten(bal)) == multiset(f[a..]) + multiset(th[b..]) by {
      BalancedMembers(f, th, k);
    }
    assert multiset(f) == multiset(f[..a]) + multiset(f[a..]) by { SplitMultiset(f, a); }
    assert multiset(th) == multiset(th[..b]) + multiset(th[b..]) by { SplitMultiset(th, b); }
    Regroup(multiset(Flatten(FinalTeams(f, th))), multiset(Flatten(bal)), multiset(rem),
            multiset(f[..a]), multiset(f[a..]), multiset(th[..b]), multiset(th[b..]));
  }

  /** All teams but the newest are full; the newest is at the end when it
      was just opened and at the front otherwise. */
  lemma ArrangementShape(bal: seq<Team>, older: seq<Team>, x: Team)
    requires Full(bal) && Full(older)
    ensures var a := Arrangement(bal, older, x);
      var pos := if Size(x) == 1 then |a| - 1 else 0;
      |a| == |bal| + |older| + 1 && a[pos] == x &&
      forall i :: 0 <= i < |a| && i != pos ==> Size(a[i]) == 4
  {
    FullReversed(older);
    var front := Reversed(older) + bal;
    assert Full(front);
    if Size(x) == 1 {
      assert Arrangement(bal, older, x) == front + [x];
    } else {
      assert Arrangement(bal, older, x) == [x] + front;
    }
  }

  lemma CeilQuarter(full: nat, last: nat)
    requires 1 <= last <= 4
    ensures (4 * full + last + 3) / 4 == full + 1
  {
    var n := 4 * full + last + 3;
    assert n == 4 * (full + 1) + (last - 1);
  }

  /** The placed team list: `k + ceil(|q| / 4)` teams of one to four
      members, at most one of them not full. */
  lemma PlacedShape(bal: seq<Team>, k: nat, q: seq<Participant>)
    requires Full(bal) && |bal| == k
    ensures var ts := Placed(bal, k, q);
      |ts| == k + (|q| + 3) / 4 &&
      (forall i :: 0 <= i < |ts| ==> 1 <= Size(ts[i]) <= 4) &&
      (forall i, j :: 0 <= i < j < |ts| ==> Size(ts[i]) == 4 || Size(ts[j]) == 4)
  {
    if q != [] {
      var g := LeftoverGroups(k, q);
      GroupsFacts(k, q);
      GroupsShape(k, q);
      ArrangementShape(bal, g.0, g.1);
      CeilQuarter(|g.0|, Size(g.1));
    }
  }

  lemma SwapFirstTwo<T>(a: multiset<T>, b: multiset<T>, r: multiset<T>, o: multiset<T>,
                        bl: multiset<T>, x: multiset<T>)
    requires a == r + bl + x && b == bl + o + x && r == o
    ensures a == b
  {
  }

  lemma IdsOfParts(bal: seq<Team>, older: seq<Team>, x: Team)
    ensures multiset(Ids(bal + older + [x])) == multiset(Ids(bal)) + multiset(Ids(older)) + multiset{x.id}
  {
    IdsConcat(bal + older, [x]);
    IdsConcat(bal, older);
  }

  lemma IdsThree(a: seq<Team>, b: seq<Team>, c: seq<Team>)
    ensures Ids(a + b + c) == Ids(a) + Ids(b) + Ids(c)
  {
    IdsConcat(a + b, c);
    IdsConcat(a, b);
  }

  lemma IdsOfArrangement(bal: seq<Team>, older: seq<Team>, x: Team)
    ensures multiset(Ids(Arrangement(bal, older, x))) ==
      multiset(Ids(Reversed(older))) + multiset(Ids(bal)) + multiset{x.id}
  {
    var r := Reversed(older);
    assert Ids([x]) == [x.id];
    if Size(x) == 1 {
      IdsThree(r, bal, [x]);
    } else {
      IdsThree([x], r, bal);
    }
  }

  /** Rearranging the teams rearranges their ids. */
  lemma ArrangementIds(bal: seq<Team>, older: seq<Team>, x: Team)
    ensures multiset(Ids(Arrangement(bal, older, x))) == multiset(Ids(bal + older + [x]))
  {
    IdsReversed(older);
    IdsOfParts(bal, older, x);
    IdsOfArrangement(bal, older, x);
    SwapFirstTwo(multiset(Ids(Arrangement(bal, older, x))), multiset(Ids(bal + older + [x])),
                 multiset(Ids(Reversed(older))), multiset(Ids(older)), multiset(Ids(bal)), multiset{x.id});
  }

  /** Balanced team `i` has id `i + 1`; the leftover teams continue from
      there, so the placed list carries each of the ids `1..n` once, in
      whatever order the sorts left the teams. */
  lemma PlacedIds(bal: seq<Team>, k: nat, q: seq<Participant>)
    requires |bal| == k && forall j :: 0 <= j < k ==> bal[j].id == j + 1
    ensures multiset(Ids(Placed(bal, k, q))) == multiset(Iota(|Placed(bal, k, q)|))
  {
    if q == [] {
      assert Ids(bal) == Iota(k);
    } else {
      var g := LeftoverGroups(k, q);
      GroupsFacts(k, q);
      var all := bal + g.0 + [g.1];
      assert Ids(all) == Iota(|all|);
      ArrangementIds(bal, g.0, g.1);
    }
  }

  /** Every team of the arrangement comes from one of its three parts. */
  lemma ArrangementFrom(bal: seq<Team>, older: seq<Team>, x: Team, i: nat)
    requires i < |Arrangement(bal, older, x)|
    ensures var t := Arrangement(bal, older, x)[i];
      t in bal || t in older || t == x
  {
    var a := Arrangement(bal, older, x);
    ReversedPermutes(older);
    assert a[i] in multiset(a);
    if Size(x) == 1 {
      assert multiset(a) == multiset(Reversed(older)) + multiset(bal) + multiset{x};
    } else {
      assert multiset(a) == multiset{x} + multiset(Reversed(older)) + multiset(bal);
    }
  }

  /** The teams with ids `1..k` are the balanced teams, unchanged by the
      leftover phase: team `i + 1` holds the `2i`-th and `2i+1`-th pops of
      the First bucket, then those of the Third bucket. */
  lemma PlacedKeepsBalanced(f: seq<Participant>, th: seq<Participant>, k: nat, q: seq<Participant>)
    requires 2 * k <= |f| && 2 * k <= |th|
    ensures var ts := Placed(Balanced(f, th, k), k, q);
      forall i :: 0 <= i < |ts| && ts[i].id <= k ==>
        1 <= ts[i].id && ts[i] == BalancedTeam(f, th, ts[i].id - 1)
  {
    var bal := Balanced(f, th, k);
    var ts := Placed(bal, k, q);
    if q != [] {
      var g := LeftoverGroups(k, q);
      GroupsFacts(k, q);
      forall i | 0 <= i < |ts| && ts[i].id <= k
        ensures 1 <= ts[i].id && ts[i] == BalancedTeam(f, th, ts[i].id - 1)
      {
        ArrangementFrom(bal, g.0, g.1, i);
      }
    }
  }

  /** Leftovers are popped off the end of `[...first, ...third]`: the Third
      leftovers go into the leftover teams first, each bucket back to front. */
  lemma LeftoverOrder(f: seq<Participant>, th: seq<Participant>)
    requires Reversed(Remaining(f, th)) != []
    ensures var k := BalancedCount(|f|, |th|);
      var g := LeftoverGroups(k, Reversed(Remaining(f, th)));
      Flatten(g.0) + g.1.members == Reversed(th[..|th| - 2 * k]) + Reversed(f[..|f| - 2 * k])
  {
    var k := BalancedCount(|f|, |th|);
    ReversedConcat(f[..|f| - 2 * k], th[..|th| - 2 * k]);
    GroupsFacts(k, Reversed(Remaining(f, th)));
  }

  /** After the in-place sort the team at index 0 has the fewest members,
      and no team has more than four; so a participant joins a smallest
      team, and a new team is opened only when every team is full. */
  lemma SortedFront(bal: seq<Team>, k: nat, q: seq<Participant>)
    requires Full(bal) && |bal| == k
    ensures var ts := StableSort.Sort(Placed(bal, k, q), SizeKey);
      forall i :: 0 <= i < |ts| ==> Size(ts[0]) <= Size(ts[i]) <= 4
  {
    var before := Placed(bal, k, q);
    var ts := StableSort.Sort(before, SizeKey);
    PlacedShape(bal, k, q);
    StableSort.SortSorted(before, SizeKey);
    StableSort.SortPermutes(before, SizeKey);
    forall i | 0 <= i < |ts| ensures Size(ts[0]) <= Size(ts[i]) <= 4 {
      assert ts[i] in multiset(before);
      if i > 0 {
        assert SizeKey(ts[0]) <= SizeKey(ts[i]);
      }
    }
  }

  /** A successful run, unfolded: the teams are `FinalTeams` of the two
      shuffled buckets, which split the roster by semester. */
  lemma OkBuckets(ps: seq<Participant>, jsFirst: seq<nat>, jsThird: seq<nat>)
      returns (f: seq<Participant>, th: seq<Participant>)
    requires FisherYates.ValidChoices(jsFirst, |OfSemester(ps, First)|)
    requires FisherYates.ValidChoices(jsThird, |OfSemester(ps, Third)|)
    requires Partition(ps, jsFirst, jsThird).Ok?
    ensures Partition(ps, jsFirst, jsThird).value == FinalTeams(f, th)
    ensures multiset(f) + multiset(th) == multiset(ps)
    ensures |f| == TeamStats(ps).firstCount && |th| == TeamStats(ps).thirdCount && |f| + |th| == |ps|
    ensures (forall p :: p in f ==> p.semester == First) && (forall p :: p in th ==> p.semester == Third)
  {
    f, th := ShuffledBuckets(ps, jsFirst, jsThird);
  }

  /** When the run throws: a participant of another semester makes the
      split throw at the first such participant; otherwise it throws exactly
      when there is someone to place but no balanced team (fewer than two
      First or two Third participants). No participants, no teams. */
  lemma PartitionOutcome(ps: seq<Participant>, jsFirst: seq<nat>, jsThird: seq<nat>)
    requires FisherYates.ValidChoices(jsFirst, |OfSemester(ps, First)|)
    requires FisherYates.ValidChoices(jsThird, |OfSemester(ps, Third)|)
    ensures var r := Partition(ps, jsFirst, jsThird);
      var st := TeamStats(ps);
      var k := BalancedCount(st.firstCount, st.thirdCount);
      (r.Crash? <==> FirstOther(ps).Some? || (k == 0 && |ps| > 0)) &&
      (FirstOther(ps).Some? ==> r == Crash(UnknownSemester(FirstOther(ps).value.semester.text))) &&
      (FirstOther(ps).None? && k == 0 && |ps| > 0 ==> r == Crash(NoTeamAt(0))) &&
      (ps == [] ==> r == Ok([]))
  {
    var split := SplitBySemester(ps);
    if split.Ok? {
      StatsMatchBuckets(ps);
      if ps == [] {
        var none: seq<Participant> := [];
        assert Remaining(none, none) == [];
        assert Reversed(none) == [];
      }
    }
  }

  /** Every participant ends up in exactly one team. */
  lemma PartitionMembers(ps: seq<Participant>, jsFirst: seq<nat>, jsThird: seq<nat>)
    requires FisherYates.ValidChoices(jsFirst, |OfSemester(ps, First)|)
    requires FisherYates.ValidChoices(jsThird, |OfSemester(ps, Third)|)
    requires Partition(ps, jsFirst, jsThird).Ok?
    ensures multiset(Flatten(Partition(ps, jsFirst, jsThird).value)) == multiset(ps)
  {
    var f, th := OkBuckets(ps, jsFirst, jsThird);
    FinalTeamsMembers(f, th);
  }

  /** `k` balanced teams and `ceil(leftovers / 4)` more, where `k` is the
      smaller of half the First count and half the Third count; every team
      has one to four members and at most one has fewer than four. */
  lemma PartitionShape(ps: seq<Participant>, jsFirst: seq<nat>, jsThird: seq<nat>)
    requires FisherYates.ValidChoices(jsFirst, |OfSemester(ps, First)|)
    requires FisherYates.ValidChoices(jsThird, |OfSemester(ps, Third)|)
    requires Partition(ps, jsFirst, jsThird).Ok?
    ensures var ts := Partition(ps, jsFirst, jsThird).value;
      var st := TeamStats(ps);
      var k := BalancedCount(st.firstCount, st.thirdCount);
      4 * k <= |ps| &&
      |ts| == k + (|ps| - 4 * k + 3) / 4 &&
      (forall i :: 0 <= i < |ts| ==> 1 <= Size(ts[i]) <= 4) &&
      (forall i, j :: 0 <= i < j < |ts| ==> Size(ts[i]) == 4 || Size(ts[j]) == 4)
  {
    var f, th := OkBuckets(ps, jsFirst, jsThird);
    var k := BalancedCount(|f|, |th|);
    BalancedFull(f, th, k);
    PlacedShape(Balanced(f, th, k), k, Reversed(Remaining(f, th)));
  }

  /** The ids are exactly `1..n`, each once, although the sorts reorder the
      teams: every new id is the list length plus one. */
  lemma PartitionIds(ps: seq<Participant>, jsFirst: seq<nat>, jsThird: seq<nat>)
    requires FisherYates.ValidChoices(jsFirst, |OfSemester(ps, First)|)
    requires FisherYates.ValidChoices(jsThird, |OfSemester(ps, Third)|)
    requires Partition(ps, jsFirst, jsThird).Ok?
    ensures var ts := Partition(ps, jsFirst, jsThird).value;
      multiset(Ids(ts)) == multiset(Iota(|ts|))
  {
    var f, th := OkBuckets(ps, jsFirst, jsThird);
    var k := BalancedCount(|f|, |th|);
    PlacedIds(Balanced(f, th, k), k, Reversed(Remaining(f, th)));
  }

  /** The teams with ids `1..k` are the balanced ones: two First then two
      Third participants each. */
  lemma PartitionBalanced(ps: seq<Participant>, jsFirst: seq<nat>, jsThird: seq<nat>)
    requires FisherYates.ValidChoices(jsFirst, |OfSemester(ps, First)|)
    requires FisherYates.ValidChoices(jsThird, |OfSemester(ps, Third)|)
    requires Partition(ps, jsFirst, jsThird).Ok?
    ensures var ts := Partition(ps, jsFirst, jsThird).value;
      var st := TeamStats(ps);
      var k := BalancedCount(st.firstCount, st.thirdCount);
      forall i :: 0 <= i < |ts| && ts[i].id <= k ==>
        Size(ts[i]) == 4 &&
        ts[i].members[0].semester == First && ts[i].members[1].semester == First &&
        ts[i].members[2].semester == Third && ts[i].members[3].semester == Third
  {
    var f, th := OkBuckets(ps, jsFirst, jsThird);
    var k := BalancedCount(|f|, |th|);
    PlacedKeepsBalanced(f, th, k, Reversed(Remaining(f, th)));
  }
}
