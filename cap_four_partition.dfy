/** The partitioner of FinalDivder, EnhancedReveal, Divider (`formFinalTeams`)
    and Shu (`formTeams`), whose code is the same in all four: split by
    semester, shuffle each bucket, pop balanced 2 + 2 teams off the bucket
    ends, then pop the leftovers one by one into the smallest team while it
    has fewer than four members, or into a new team of one. */
module CapFourPartition {
  import opened Roster
  import FisherYates
  import StableSort
  import opened BalancedPhase

  /** The leftover teams after the participants `q` (in pop order) have been
      placed: the full ones in order of creation, and the newest one. A
      participant joins the newest team while it has room, and otherwise
      opens the next one, whose id follows all teams so far. */
  function LeftoverGroups(k: nat, q: seq<Participant>): (r: (seq<Team>, Team))
    requires q != []
    decreases |q|
  {
    if |q| == 1 then ([], Team(k + 1, q))
    else
      var g := LeftoverGroups(k, q[..|q| - 1]);
      var p := q[|q| - 1];
      if Size(g.1) == 4 then (g.0 + [g.1], Team(k + |g.0| + 2, [p]))
      else (g.0, Team(g.1.id, g.1.members + [p]))
  }

  /** The order the in-place sorts leave the teams in: a team opened by the
      last placement is still at the end; otherwise the newest team was
      moved to the front. The older leftover teams precede the balanced
      ones, newest first. */
  function Arrangement(bal: seq<Team>, older: seq<Team>, x: Team): seq<Team>
  {
    if Size(x) == 1 then Reversed(older) + bal + [x]
    else [x] + Reversed(older) + bal
  }

  /** The team list after the leftovers `q` (in pop order) have been placed. */
  function Placed(bal: seq<Team>, k: nat, q: seq<Participant>): seq<Team>
  {
    if q == [] then bal
    else
      var g := LeftoverGroups(k, q);
      Arrangement(bal, g.0, g.1)
  }

  /** The teams built from the shuffled buckets `f` and `th`, when nothing
      throws. */
  function FinalTeams(f: seq<Participant>, th: seq<Participant>): seq<Team>
  {
    var k := BalancedCount(|f|, |th|);
    Placed(Balanced(f, th, k), k, Reversed(Remaining(f, th)))
  }

  /** The whole run: a participant of another semester throws in the split;
      with no balanced team, the first leftover finds no team at index 0. */
  function Partition(ps: seq<Participant>, jsFirst: seq<nat>, jsThird: seq<nat>): Result<seq<Team>>
    requires FisherYates.ValidChoices(jsFirst, |OfSemester(ps, First)|)
    requires FisherYates.ValidChoices(jsThird, |OfSemester(ps, Third)|)
  {
    match SplitBySemester(ps)
    case Crash(fault) => Crash(fault)
    case Ok(buckets) =>
      var f := FisherYates.Shuffled(buckets.0, jsFirst);
      var th := FisherYates.Shuffled(buckets.1, jsThird);
      if BalancedCount(|f|, |th|) == 0 && |f| + |th| > 0 then Crash(NoTeamAt(0))
      else Ok(FinalTeams(f, th))
  }

  /** `formFinalTeams` / `formTeams`, with the draws of `Math.random` given. */
  method FormFinalTeams(ps: seq<Participant>, jsFirst: seq<nat>, jsThird: seq<nat>) returns (r: Result<seq<Team>>)
    requires FisherYates.ValidChoices(jsFirst, |OfSemester(ps, First)|)
    requires FisherYates.ValidChoices(jsThird, |OfSemester(ps, Third)|)
    ensures r == Partition(ps, jsFirst, jsThird)
  {
    var split := SplitBySemester(ps);
    if split.Crash? {
      return Crash(split.fault);
    }
    var firstArr := ToArray(split.value.0);
    var thirdArr := ToArray(split.value.1);
    FisherYates.ShuffleArray(firstArr, jsFirst);
    FisherYates.ShuffleArray(thirdArr, jsThird);
    var teams, first, third := PopBalanced(firstArr[..], thirdArr[..]);
    BalancedFull(firstArr[..], thirdArr[..], |teams|);
    r := PlaceLeftovers(teams, first + third);
  }

  /** The `while` loop: pop a leftover, sort the teams by size in place, and
      top up the team at index 0 or open a new one. With no team at all,
      `teams[0].members` throws. */
  method PlaceLeftovers(bal: seq<Team>, remaining: seq<Participant>) returns (r: Result<seq<Team>>)
    requires Full(bal)
    ensures r == if bal == [] && remaining != [] then Crash(NoTeamAt(0))
                 else Ok(Placed(bal, |bal|, Reversed(remaining)))
  {
    var teams := bal;
    var rest := remaining;
    assert remaining[|remaining|..] == [];
    while |rest| > 0
      invariant rest == remaining[..|rest|]
      invariant teams == Placed(bal, |bal|, Reversed(remaining[|rest|..]))
      invariant bal == [] ==> rest == remaining
    {
      ghost var q := Reversed(remaining[|rest|..]);
      var participant := rest[|rest| - 1];
      rest := rest[..|rest| - 1];
      PopOrder(remaining, |rest|);
      teams := StableSort.Sort(teams, SizeKey);
      if |teams| == 0 {
        PlacedEmpty(bal, q);
        return Crash(NoTeamAt(0));
      }
      PlaceStep(bal, |bal|, q, participant);
      if Size(teams[0]) < 4 {
        teams := teams[0 := Team(teams[0].id, teams[0].members + [participant])];
      } else {
        teams := teams + [Team(|teams| + 1, [participant])];
      }
    }
    assert remaining[0..] == remaining;
    return Ok(teams);
  }

  lemma PlacedEmpty(bal: seq<Team>, q: seq<Participant>)
    ensures Placed(bal, |bal|, q) == [] <==> bal == [] && q == []
  {
  }

  /** Popping the last element of `rem[..m + 1]` extends the pop order by it. */
  lemma PopOrder(rem: seq<Participant>, m: nat)
    requires m < |rem|
    ensures Reversed(rem[m..]) == Reversed(rem[m + 1..]) + [rem[m]]
  {
    assert rem[m..] == [rem[m]] + rem[m + 1..];
    ReversedCons(rem[m], rem[m + 1..]);
  }

  lemma {:induction false} GroupsShape(k: nat, q: seq<Participant>)
    requires q != []
    ensures Full(LeftoverGroups(k, q).0)
    ensures 1 <= Size(LeftoverGroups(k, q).1) <= 4
    decreases |q|
  {
    if |q| > 1 {
      GroupsShape(k, q[..|q| - 1]);
    }
  }

  /** A team of one behind full teams is moved to the front. */
  lemma ArrangeSingle(front: seq<Team>, x: Team)
    requires Full(front) && Size(x) == 1
    ensures StableSort.Sort(front + [x], SizeKey) == [x] + front
  {
    assert StableSort.AllKey(front, SizeKey, 4.0);
    StableSort.SortBlocks(front, [x], [], SizeKey, 4.0, 1.0);
    assert front + [x] + [] == front + [x];
    assert [x] + front + [] == [x] + front;
  }

  /** A team with room in front of full teams stays in front. */
  lemma ArrangeFront(x: Team, rest: seq<Team>)
    requires Full(rest) && Size(x) <= 4
    ensures StableSort.Sort([x] + rest, SizeKey) == [x] + rest
  {
    assert StableSort.SortedBy([x] + rest, SizeKey);
    StableSort.SortOfSorted([x] + rest, SizeKey);
  }

  lemma FullJoin(a: seq<Team>, b: seq<Team>)
    requires Full(a) && Full(b)
    ensures Full(a + b)
  {
  }

  /** The newest team is full: the sort keeps the order and the
      participant opens a team whose id follows all the others. */
  lemma OpenAfterFull(bal: seq<Team>, older: seq<Team>, x: Team, p: Participant)
    requires Full(bal) && Full(older) && Size(x) == 4
    ensures var ts := StableSort.Sort(Arrangement(bal, older, x), SizeKey);
      |ts| == |older| + |bal| + 1 && Size(ts[0]) == 4 &&
      ts + [Team(|ts| + 1, [p])] == Arrangement(bal, older + [x], Team(|older| + |bal| + 2, [p]))
  {
    var front := Reversed(older) + bal;
    var arr := Arrangement(bal, older, x);
    assert arr == [x] + front;
    assert Full(front) by {
      FullReversed(older);
      FullJoin(Reversed(older), bal);
    }
    assert Full(arr) by {
      FullJoin([x], front);
    }
    assert StableSort.Sort(arr, SizeKey) == arr by {
      ArrangeFull(arr);
    }
    var y := Team(|older| + |bal| + 2, [p]);
    assert Arrangement(bal, older + [x], y) == Reversed(older + [x]) + bal + [y];
    assert Reversed(older + [x]) + bal + [y] == arr + [y] by {
      ReversedSnoc(older, x);
    }
  }

  /** The newest team has room: after the sort it is at index 0 and takes
      the participant. */
  lemma JoinNewest(bal: seq<Team>, older: seq<Team>, x: Team, p: Participant)
    requires Full(bal) && Full(older) && 1 <= Size(x) < 4
    ensures var ts := StableSort.Sort(Arrangement(bal, older, x), SizeKey);
      |ts| > 0 && ts[0] == x &&
      ts[0 := Team(x.id, x.members + [p])] == Arrangement(bal, older, Team(x.id, x.members + [p]))
  {
    var front := Reversed(older) + bal;
    FullReversed(older);
    assert Full(front);
    var x' := Team(x.id, x.members + [p]);
    if Size(x) == 1 {
      assert Arrangement(bal, older, x) == front + [x];
      ArrangeSingle(front, x);
    } else {
      assert Arrangement(bal, older, x) == [x] + front;
      ArrangeFront(x, front);
    }
    assert Arrangement(bal, older, x') == [x'] + front;
  }

  lemma GroupsSnoc(k: nat, q: seq<Participant>, p: Participant)
    requires q != []
    ensures var g := LeftoverGroups(k, q);
      LeftoverGroups(k, q + [p]) ==
        if Size(g.1) == 4 then (g.0 + [g.1], Team(k + |g.0| + 2, [p]))
        else (g.0, Team(g.1.id, g.1.members + [p]))
  {
    var q' := q + [p];
    assert q'[..|q'| - 1] == q && q'[|q'| - 1] == p;
  }

  /** The first leftover: the balanced teams are all full, so it opens
      team `k + 1` at the end. */
  lemma PlaceFirst(bal: seq<Team>, k: nat, p: Participant)
    requires Full(bal) && |bal| == k
    ensures StableSort.Sort(bal, SizeKey) == bal
    ensures Placed(bal, k, [p]) == bal + [Team(k + 1, [p])]
  {
    ArrangeFull(bal);
    var none: seq<Team> := [];
    assert Reversed(none) == none;
    assert Placed(bal, k, [p]) == Reversed(none) + bal + [Team(k + 1, [p])];
  }

  /** One iteration of the leftover loop: sort, then top up the team at
      index 0 or open a new team, gives the team list for `q + [p]`. */
  lemma PlaceStep(bal: seq<Team>, k: nat, q: seq<Participant>, p: Participant)
    requires Full(bal) && |bal| == k
    ensures var ts := StableSort.Sort(Placed(bal, k, q), SizeKey);
      |ts| == 0 || (
      (Size(ts[0]) < 4 ==> ts[0 := Team(ts[0].id, ts[0].members + [p])] == Placed(bal, k, q + [p])) &&
      (Size(ts[0]) >= 4 ==> ts + [Team(|ts| + 1, [p])] == Placed(bal, k, q + [p])))
  {
    if q == [] {
      PlaceFirst(bal, k, p);
      assert q + [p] == [p];
    } else {
      var g := LeftoverGroups(k, q);
      var g' := LeftoverGroups(k, q + [p]);
      assert Placed(bal, k, q) == Arrangement(bal, g.0, g.1);
      assert Placed(bal, k, q + [p]) == Arrangement(bal, g'.0, g'.1);
      GroupsShape(k, q);
      GroupsSnoc(k, q, p);
      if Size(g.1) == 4 {
        assert g' == (g.0 + [g.1], Team(|g.0| + |bal| + 2, [p]));
        OpenAfterFull(bal, g.0, g.1, p);
      } else {
        assert g' == (g.0, Team(g.1.id, g.1.members + [p]));
        JoinNewest(bal, g.0, g.1, p);
      }
    }
  }
}
