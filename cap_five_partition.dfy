/** The partitioner of ShuffleTest (`formTeams` with its inner
    `redistributeRemainingMembers`): the same balanced phase, then the
    leftovers are shifted off the front of `[...first, ...third]` into the
    smallest team while it has fewer than five members. When the smallest
    team is full the loop breaks and the rest are silently dropped; no team
    is ever added. */
module CapFivePartition {
  import opened Roster
  import FisherYates
  import StableSort
  import opened BalancedPhase

  /** The first `c` balanced teams, each with the leftover of the same index
      pushed onto it. */
  function Topped(bal: seq<Team>, u: seq<Participant>, c: nat): (r: seq<Team>)
    requires c <= |bal| && c <= |u|
    ensures |r| == c
  {
    seq(c, i requires 0 <= i < c => Joined(bal[i], u[i]))
  }

  /** The team list once `c` leftovers have been shifted in and the list
      re-sorted: the teams still at four keep their order in front, the
      topped-up teams follow, the latest first. */
  function Redistributed(bal: seq<Team>, u: seq<Participant>, c: nat): (r: seq<Team>)
    requires c <= |bal| && c <= |u|
    ensures |r| == |bal|
  {
    bal[c..] + Reversed(Topped(bal, u, c))
  }

  /** The teams built from the shuffled buckets when nothing throws: one
      leftover per balanced team at most. */
  function FiveTeams(f: seq<Participant>, th: seq<Participant>): seq<Team>
  {
    var k := BalancedCount(|f|, |th|);
    var u := Remaining(f, th);
    Redistributed(Balanced(f, th, k), u, Min(k, |u|))
  }

  /** The whole run: a participant of another semester throws in the split;
      with leftovers but no team, `shuffledTeams[0].members` throws. */
  function Partition(ps: seq<Participant>, jsFirst: seq<nat>, jsThird: seq<nat>): Result<seq<Team>>
    requires FisherYates.ValidChoices(jsFirst, |OfSemester(ps, First)|)
    requires FisherYates.ValidChoices(jsThird, |OfSemester(ps, Third)|)
  {
    match SplitBySemester(ps)
    case Crash(fault) => Crash(fault)
    case Ok(buckets) =>
      var f := FisherYates.Shuffled(buckets.0, jsFirst);
      var th := FisherYates.Shuffled(buckets.1, jsThird);
      if BalancedCount(|f|, |th|) == 0 && |f| + |th| > 0 then Crash(NoTeamAt(0))
      else Ok(FiveTeams(f, th))
  }

  /** `formTeams`, with the draws of `Math.random` given. */
  method FormTeams(ps: seq<Participant>, jsFirst: seq<nat>, jsThird: seq<nat>) returns (r: Result<seq<Team>>)
    requires FisherYates.ValidChoices(jsFirst, |OfSemester(ps, First)|)
    requires FisherYates.ValidChoices(jsThird, |OfSemester(ps, Third)|)
    ensures r == Partition(ps, jsFirst, jsThird)
  {
    var split := SplitBySemester(ps);
    if split.Crash? {
      return Crash(split.fault);
    }
    var firstArr := ToArray(split.value.0);
    var thirdArr := ToArray(split.value.1);
    FisherYates.ShuffleArray(firstArr, jsFirst);
    FisherYates.ShuffleArray(thirdArr, jsThird);
    var teams, first, third := PopGuarded(firstArr[..], thirdArr[..]);
    BalancedFull(firstArr[..], thirdArr[..], |teams|);
    r := RedistributeRemaining(teams, first + third);
  }

  /** The `for` loop with its guard `first.length >= 2 && third.length >= 2`,
      which holds on every iteration, so all `maxTeams` teams are formed. */
  method PopGuarded(f: seq<Participant>, th: seq<Participant>) returns (teams: seq<Team>, first: seq<Participant>, third: seq<Participant>)
    ensures var k := BalancedCount(|f|, |th|);
      teams == Balanced(f, th, k) && first + third == Remaining(f, th) &&
      first == f[..|f| - 2 * k] && third == th[..|th| - 2 * k]
  {
    first, third := f, th;
    teams := [];
    var maxTeams := Min(|first| / 2, |third| / 2);
    for i := 0 to maxTeams
      invariant first == f[..|f| - 2 * i] && third == th[..|th| - 2 * i]
      invariant teams == Balanced(f, th, i)
    {
      if |first| >= 2 && |third| >= 2 {
        BalancedSnoc(f, th, i);
        var a := first[|first| - 1];
        first := first[..|first| - 1];
        var b := first[|first| - 1];
        first := first[..|first| - 1];
        var c := third[|third| - 1];
        third := third[..|third| - 1];
        var d := third[|third| - 1];
        third := third[..|third| - 1];
        teams := teams + [Team(i + 1, [a, b, c, d])];
      }
    }
  }

  /** `redistributeRemainingMembers`: sort, then while someone is unassigned
      shift them into the team at index 0 if it has fewer than five members
      and re-sort, else stop. */
  method RedistributeRemaining(bal: seq<Team>, remaining: seq<Participant>) returns (r: Result<seq<Team>>)
    requires Full(bal)
    ensures r == if bal == [] && remaining != [] then Crash(NoTeamAt(0))
                 else Ok(Redistributed(bal, remaining, Min(|bal|, |remaining|)))
  {
    ArrangeFull(bal);
    RedistributedStart(bal, remaining);
    var teams := StableSort.Sort(bal, SizeKey);
    var unassigned := remaining;
    ghost var c := 0;
    while |unassigned| > 0
      invariant c <= |bal| && c <= |remaining|
      invariant unassigned == remaining[c..]
      invariant teams == Redistributed(bal, remaining, c)
    {
      if |teams| == 0 {
        return Crash(NoTeamAt(0));
      }
      var fewest := teams[0];
      if Size(fewest) < 5 {
        RedistributeStep(bal, remaining, c);
        var member := unassigned[0];
        unassigned := unassigned[1..];
        teams := teams[0 := Joined(fewest, member)];
        teams := StableSort.Sort(teams, SizeKey);
        c := c + 1;
      } else {
        RedistributedNoRoom(bal, remaining, c);
        break;
      }
    }
    return Ok(teams);
  }

  lemma RedistributedStart(bal: seq<Team>, u: seq<Participant>)
    ensures Redistributed(bal, u, 0) == bal
  {
    assert Topped(bal, u, 0) == [];
    assert bal[0..] + [] == bal;
  }

  /** Every topped-up team has five members. */
  lemma ToppedFive(bal: seq<Team>, u: seq<Participant>, c: nat)
    requires Full(bal) && c <= |bal| && c <= |u|
    ensures StableSort.AllKey(Reversed(Topped(bal, u, c)), SizeKey, 5.0)
  {
    var t := Topped(bal, u, c);
    forall i | 0 <= i < c ensures SizeKey(Reversed(t)[i]) == 5.0 {
      ReversedAt(t, i);
    }
  }

  /** A team still at four is at index 0: it takes the next leftover, and the
      re-sort moves it behind the other teams at four. */
  lemma RedistributeStep(bal: seq<Team>, u: seq<Participant>, c: nat)
    requires Full(bal) && c < |bal| && c < |u|
    ensures var ts := Redistributed(bal, u, c);
      |ts| > 0 && ts[0] == bal[c] && Size(ts[0]) < 5 &&
      StableSort.Sort(ts[0 := Joined(ts[0], u[c])], SizeKey) == Redistributed(bal, u, c + 1)
  {
    var ts := Redistributed(bal, u, c);
    var t := Topped(bal, u, c);
    var x := Joined(bal[c], u[c]);
    var rest := bal[c + 1..];
    assert bal[c..] == [bal[c]] + rest;
    assert ts[0 := x] == [x] + rest + Reversed(t);
    ToppedFive(bal, u, c);
    MoveBehindFours(x, rest, Reversed(t));
    ToppedSnoc(bal, u, c);
    ReversedSnoc(t, x);
  }

  /** The re-sort: a team that just reached five moves behind the teams at
      four and ahead of the earlier teams of five. */
  lemma MoveBehindFours(x: Team, fours: seq<Team>, fives: seq<Team>)
    requires Size(x) == 5 && Full(fours) && StableSort.AllKey(fives, SizeKey, 5.0)
    ensures StableSort.Sort([x] + fours + fives, SizeKey) == fours + ([x] + fives)
  {
    assert StableSort.AllKey(fours, SizeKey, 4.0);
    StableSort.SortBlocks([x], fours, fives, SizeKey, 5.0, 4.0);
  }

  lemma ToppedSnoc(bal: seq<Team>, u: seq<Participant>, c: nat)
    requires c < |bal| && c < |u|
    ensures Topped(bal, u, c + 1) == Topped(bal, u, c) + [Joined(bal[c], u[c])]
  {
  }

  /** Once every team is topped up, the team at index 0 has five members. */
  lemma RedistributedNoRoom(bal: seq<Team>, u: seq<Participant>, c: nat)
    requires Full(bal) && c <= |bal| && c <= |u|
    requires var ts := Redistributed(bal, u, c); |ts| > 0 && Size(ts[0]) >= 5
    ensures c == |bal|
  {
  }

  /** Where each team sits after `c` placements: the teams still at four
      first, in their original order, then the topped-up ones, latest first. */
  lemma RedistributedAt(bal: seq<Team>, u: seq<Participant>, c: nat, i: nat)
    requires c <= |bal| && c <= |u| && i < |bal|
    ensures |Redistributed(bal, u, c)| == |bal|
    ensures Redistributed(bal, u, c)[i] ==
      if i < |bal| - c then bal[c + i] else Joined(bal[|bal| - 1 - i], u[|bal| - 1 - i])
  {
    var t := Topped(bal, u, c);
    if i >= |bal| - c {
      ReversedAt(t, i - (|bal| - c));
    }
  }

  /** Teams that are `b`'s teams each joined by the matching participant of
      `v` hold exactly `b`'s members and `v`. */
  lemma {:induction false} JoinedMembers(t: seq<Team>, b: seq<Team>, v: seq<Participant>)
    requires |t| == |b| == |v|
    requires forall i :: 0 <= i < |t| ==> t[i] == Joined(b[i], v[i])
    ensures multiset(Flatten(t)) == multiset(Flatten(b)) + multiset(v)
    decreases |t|
  {
    if t != [] {
      var n := |t| - 1;
      JoinedPrefix(t, b, v, n);
      JoinedMembers(t[..n], b[..n], v[..n]);
      JoinedLast(t, b, v);
    }
  }

  lemma JoinedPrefix(t: seq<Team>, b: seq<Team>, v: seq<Participant>, n: nat)
    requires n <= |t| == |b| == |v|
    requires forall i :: 0 <= i < |t| ==> t[i] == Joined(b[i], v[i])
    ensures forall i :: 0 <= i < n ==> t[..n][i] == Joined(b[..n][i], v[..n][i])
  {
    forall i | 0 <= i < n ensures t[..n][i] == Joined(b[..n][i], v[..n][i]) {
      assert t[..n][i] == t[i] && b[..n][i] == b[i] && v[..n][i] == v[i];
    }
  }

  /** The last team joined adds its team's members and its participant. */
  lemma JoinedLast(t: seq<Team>, b: seq<Team>, v: seq<Participant>)
    requires 0 < |t| == |b| == |v|
    requires t[|t| - 1] == Joined(b[|t| - 1], v[|t| - 1])
    requires var n := |t| - 1;
      multiset(Flatten(t[..n])) == multiset(Flatten(b[..n])) + multiset(v[..n])
    ensures multiset(Flatten(t)) == multiset(Flatten(b)) + multiset(v)
  {
    var n := |t| - 1;
    FlattenLast(t);
    FlattenLast(b);
    assert v == v[..n] + [v[n]];
    MultisetStep(Flatten(t[..n]), Flatten(b[..n]), v[..n], b[n].members, v[n]);
  }

  /** One placement adds the same participant on both sides. */
  lemma MultisetStep(fp: seq<Participant>, fb: seq<Participant>, ub: seq<Participant>,
                     bm: seq<Participant>, y: Participant)
    requires multiset(fp) == multiset(fb) + multiset(ub)
    ensures multiset(fp + (bm + [y])) == multiset(fb + bm) + multiset(ub + [y])
  {
  }

  lemma ToppedMembers(bal: seq<Team>, u: seq<Participant>, c: nat)
    requires c <= |bal| && c <= |u|
    ensures multiset(Flatten(Topped(bal, u, c))) == multiset(Flatten(bal[..c])) + multiset(u[..c])
  {
    JoinedMembers(Topped(bal, u, c), bal[..c], u[..c]);
  }

  /** After `c` placements the teams hold the balanced teams' members and
      exactly the first `c` leftovers. */
  lemma RedistributedMembers(bal: seq<Team>, u: seq<Participant>, c: nat)
    requires c <= |bal| && c <= |u|
    ensures multiset(Flatten(Redistributed(bal, u, c))) == multiset(Flatten(bal)) + multiset(u[..c])
  {
    var t := Topped(bal, u, c);
    FlattenConcat(bal[c..], Reversed(t));
    FlattenReversed(t);
    ToppedMembers(bal, u, c);
    FlattenSplit(bal, c);
  }

  lemma FlattenSplit(ts: seq<Team>, c: nat)
    requires c <= |ts|
    ensures multiset(Flatten(ts)) == multiset(Flatten(ts[..c])) + multiset(Flatten(ts[c..]))
  {
    assert ts == ts[..c] + ts[c..];
    FlattenConcat(ts[..c], ts[c..]);
  }

  /** Redistribution never changes the ids: they are those of the balanced
      teams, in a new order. */
  lemma RedistributedIds(bal: seq<Team>, u: seq<Participant>, c: nat)
    requires c <= |bal| && c <= |u|
    ensures multiset(Ids(Redistributed(bal, u, c))) == multiset(Ids(bal))
  {
    var t := Topped(bal, u, c);
    IdsReversed(t);
    assert Ids(t) == Ids(bal[..c]);
    assert Ids(bal[c..] + Reversed(t)) == Ids(bal[c..]) + Ids(Reversed(t));
    assert Ids(bal) == Ids(bal[..c]) + Ids(bal[c..]);
  }

  /** Team `i` of the result, when `k` balanced teams took `c` leftovers:
      balanced team `j` with, when `j < c`, leftover `j` appended. */
  lemma RedistributedTeam(f: seq<Participant>, th: seq<Participant>, u: seq<Participant>, k: nat, c: nat, i: nat)
    requires 2 * k <= |f| && 2 * k <= |th| && c <= k && c <= |u| && i < k
    ensures var t := Redistributed(Balanced(f, th, k), u, c)[i];
      var j := t.id - 1;
      0 <= j < k && 4 <= Size(t) <= 5 && t.members[..4] == BalancedTeam(f, th, j).members &&
      (Size(t) == 5 <==> j < c) && (j < c ==> t.members[4] == u[j])
  {
    var bal := Balanced(f, th, k);
    RedistributedAt(bal, u, c, i);
    var j := if i < k - c then c + i else k - 1 - i;
    assert bal[j] == BalancedTeam(f, th, j);
  }

  /** The teams built from the shuffled buckets `f` and `th`, team by team:
      `k` teams, team `j + 1` is balanced team `j` with, when `j` is among
      the first `min(k, leftovers)`, the `j`-th leftover of
      `[...first, ...third]` appended. */
  lemma FiveTeamsAt(f: seq<Participant>, th: seq<Participant>)
    ensures var k := BalancedCount(|f|, |th|);
      var u := Remaining(f, th);
      var c := Min(k, |u|);
      var ts := FiveTeams(f, th);
      |ts| == k &&
      forall i :: 0 <= i < k ==>
        var j := ts[i].id - 1;
        0 <= j < k && 4 <= Size(ts[i]) <= 5 && ts[i].members[..4] == BalancedTeam(f, th, j).members &&
        (Size(ts[i]) == 5 <==> j < c) && (j < c ==> ts[i].members[4] == u[j])
  {
    var k := BalancedCount(|f|, |th|);
    var u := Remaining(f, th);
    var c := Min(k, |u|);
    forall i | 0 <= i < k
      ensures var t := FiveTeams(f, th)[i];
        var j := t.id - 1;
        0 <= j < k && 4 <= Size(t) <= 5 && t.members[..4] == BalancedTeam(f, th, j).members &&
        (Size(t) == 5 <==> j < c) && (j < c ==> t.members[4] == u[j])
    {
      RedistributedTeam(f, th, u, k, c, i);
    }
  }

  /** The teams at four come before the teams at five. */
  lemma RedistributedSorted(bal: seq<Team>, u: seq<Participant>, c: nat)
    requires Full(bal) && c <= |bal| && c <= |u|
    ensures StableSort.SortedBy(Redistributed(bal, u, c), SizeKey)
  {
    var ts := Redistributed(bal, u, c);
    forall i, i' | 0 <= i < i' < |ts| ensures SizeKey(ts[i]) <= SizeKey(ts[i']) {
      RedistributedAt(bal, u, c, i);
      RedistributedAt(bal, u, c, i');
    }
  }

  /** A successful run, unfolded: the teams are `FiveTeams` of the two
      shuffled buckets. */
  lemma OkBuckets(ps: seq<Participant>, jsFirst: seq<nat>, jsThird: seq<nat>)
      returns (f: seq<Participant>, th: seq<Participant>)
    requires FisherYates.ValidChoices(jsFirst, |OfSemester(ps, First)|)
    requires FisherYates.ValidChoices(jsThird, |OfSemester(ps, Third)|)
    requires Partition(ps, jsFirst, jsThird).Ok?
    ensures Partition(ps, jsFirst, jsThird).value == FiveTeams(f, th)
    ensures multiset(f) + multiset(th) == multiset(ps)
    ensures |f| == TeamStats(ps).firstCount && |th| == TeamStats(ps).thirdCount && |f| + |th| == |ps|
  {
    f, th := ShuffledBuckets(ps, jsFirst, jsThird);
  }

  /** When the run throws: a participant of another semester, or leftovers
      with no balanced team at all. No participants, no teams. */
  lemma PartitionOutcome(ps: seq<Participant>, jsFirst: seq<nat>, jsThird: seq<nat>)
    requires FisherYates.ValidChoices(jsFirst, |OfSemester(ps, First)|)
    requires FisherYates.ValidChoices(jsThird, |OfSemester(ps, Third)|)
    ensures var r := Partition(ps, jsFirst, jsThird);
      var st := TeamStats(ps);
      var k := BalancedCount(st.firstCount, st.thirdCount);
      (r.Crash? <==> FirstOther(ps).Some? || (k == 0 && |ps| > 0)) &&
      (FirstOther(ps).Some? ==> r == Crash(UnknownSemester(FirstOther(ps).value.semester.text))) &&
      (FirstOther(ps).None? && k == 0 && |ps| > 0 ==> r == Crash(NoTeamAt(0))) &&
      (ps == [] ==> r == Ok([]))
  {
    if SplitBySemester(ps).Ok? {
      var f, th := ShuffledBuckets(ps, jsFirst, jsThird);
      if ps == [] {
        assert Remaining(f, th) == [];
        assert Balanced(f, th, 0) == [];
        RedistributedStart([], []);
      }
    }
  }

  /** Exactly `k` teams of four or five, in ascending order of size, with
      the ids `1..k`. */
  lemma FiveTeamsShape(f: seq<Participant>, th: seq<Participant>)
    ensures var k := BalancedCount(|f|, |th|);
      var ts := FiveTeams(f, th);
      |ts| == k && StableSort.SortedBy(ts, SizeKey) &&
      (forall i :: 0 <= i < |ts| ==> 4 <= Size(ts[i]) <= 5) &&
      multiset(Ids(ts)) == multiset(Iota(k))
  {
    var k := BalancedCount(|f|, |th|);
    var u := Remaining(f, th);
    var c := Min(k, |u|);
    var bal := Balanced(f, th, k);
    FiveTeamsAt(f, th);
    BalancedFull(f, th, k);
    RedistributedSorted(bal, u, c);
    RedistributedIds(bal, u, c);
    assert Ids(bal) == Iota(k);
  }

  /** The teams hold both buckets except the leftovers past the first `k`. */
  lemma FiveTeamsMembers(f: seq<Participant>, th: seq<Participant>)
    ensures var k := BalancedCount(|f|, |th|);
      var u := Remaining(f, th);
      var c := Min(k, |u|);
      var out := Flatten(FiveTeams(f, th));
      multiset(out) + multiset(u[c..]) == multiset(f) + multiset(th) &&
      |u| == |f| + |th| - 4 * k && |out| == 4 * k + c
  {
    var k := BalancedCount(|f|, |th|);
    var u := Remaining(f, th);
    var c := Min(k, |u|);
    BalancedPlusRemaining(f, th);
    SplitMultiset(u, c);
    var bal := Balanced(f, th, k);
    RedistributedMembers(bal, u, c);
    var out := Flatten(FiveTeams(f, th));
    assert out == Flatten(Redistributed(bal, u, c));
    ShareOut(out, Flatten(bal), u, c, multiset(f) + multiset(th));
  }

  /** Bookkeeping: what was placed plus what was dropped is everything. */
  lemma ShareOut<T>(out: seq<T>, placed: seq<T>, u: seq<T>, c: nat, whole: multiset<T>)
    requires c <= |u| && multiset(out) == multiset(placed) + multiset(u[..c])
    requires multiset(placed) + multiset(u) == whole
    ensures multiset(out) + multiset(u[c..]) == whole
    ensures |out| + |u| == |placed| + |u| + c && |placed| + |u| == |whole|
  {
    assert u == u[..c] + u[c..];
    assert |multiset(out)| == |out|;
  }

  /** No team is added and none grows past five: exactly `k` teams of four
      or five, in ascending order of size, with the ids `1..k`. */
  lemma PartitionShape(ps: seq<Participant>, jsFirst: seq<nat>, jsThird: seq<nat>)
    requires FisherYates.ValidChoices(jsFirst, |OfSemester(ps, First)|)
    requires FisherYates.ValidChoices(jsThird, |OfSemester(ps, Third)|)
    requires Partition(ps, jsFirst, jsThird).Ok?
    ensures var ts := Partition(ps, jsFirst, jsThird).value;
      var st := TeamStats(ps);
      var k := BalancedCount(st.firstCount, st.thirdCount);
      |ts| == k && StableSort.SortedBy(ts, SizeKey) &&
      (forall i :: 0 <= i < |ts| ==> 4 <= Size(ts[i]) <= 5) &&
      multiset(Ids(ts)) == multiset(Iota(k))
  {
    var f, th := OkBuckets(ps, jsFirst, jsThird);
    FiveTeamsShape(f, th);
  }

  /** Only the first `k` leftovers are placed; the rest are dropped without
      a word. The teams hold every participant exactly when there are no
      more leftovers than teams. */
  lemma PartitionMembers(ps: seq<Participant>, jsFirst: seq<nat>, jsThird: seq<nat>)
    requires FisherYates.ValidChoices(jsFirst, |OfSemester(ps, First)|)
    requires FisherYates.ValidChoices(jsThird, |OfSemester(ps, Third)|)
    requires Partition(ps, jsFirst, jsThird).Ok?
    ensures var ts := Partition(ps, jsFirst, jsThird).value;
      var st := TeamStats(ps);
      var k := BalancedCount(st.firstCount, st.thirdCount);
      multiset(Flatten(ts)) <= multiset(ps) &&
      |Flatten(ts)| == 4 * k + Min(k, |ps| - 4 * k) &&
      (multiset(Flatten(ts)) == multiset(ps) <==> |ps| - 4 * k <= k)
  {
    var f, th := OkBuckets(ps, jsFirst, jsThird);
    FiveTeamsMembers(f, th);
  }
}
