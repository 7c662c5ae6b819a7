/** The partitioner of FInalTeamForm (`finalizeTeams`): balanced 2 + 2 teams
    while both buckets have two, then teams of three popped off the end of
    `[...first, ...third]` while three remain, numbered on by the `teamId++`
    counter; one or two participants left over are pushed onto the smallest
    teams after an in-place sort by size. */
module TriplesPartition {
  import opened Roster
  import FisherYates
  import StableSort
  import opened BalancedPhase

  /** Triple `i` of the second phase: the next three pops off the end of
      the leftovers `u`, with the id after the balanced teams and the
      triples before it. */
  function TripleTeam(u: seq<Participant>, k: nat, i: nat): Team
    requires 3 * i + 3 <= |u|
  {
    Team(k + i + 1, [u[|u| - 1 - 3 * i], u[|u| - 2 - 3 * i], u[|u| - 3 - 3 * i]])
  }

  function Triples(u: seq<Participant>, k: nat, m: nat): (r: seq<Team>)
    requires 3 * m <= |u|
    ensures |r| == m
  {
    seq(m, i requires 0 <= i < m => TripleTeam(u, k, i))
  }

  /** Step 3 on the teams in ascending order of size: one participant left
      goes to the team at index 0; two left, the last goes to index 0 and
      the other to index 1. A missing team makes `.members` throw. */
  function TopUp(ts: seq<Team>, rest: seq<Participant>): Result<seq<Team>>
    requires 1 <= |rest| <= 2
  {
    if |ts| == 0 then Crash(NoTeamAt(0))
    else if |rest| == 1 then Ok(ts[0 := Joined(ts[0], rest[0])])
    else if |ts| == 1 then Crash(NoTeamAt(1))
    else Ok(ts[0 := Joined(ts[0], rest[1])][1 := Joined(ts[1], rest[0])])
  }

  /** How many triples the leftovers make. */
  function TripleCount(leftovers: nat): nat { leftovers / 3 }

  /** The teams built from the shuffled buckets `f` and `th`. With nothing
      left after the triples the list is never sorted; otherwise the sort
      puts the triples in front of the balanced teams. */
  function Finalized(f: seq<Participant>, th: seq<Participant>): Result<seq<Team>>
  {
    var k := BalancedCount(|f|, |th|);
    var u := Remaining(f, th);
    var m := TripleCount(|u|);
    var bal := Balanced(f, th, k);
    var tri := Triples(u, k, m);
    var rest := u[..|u| - 3 * m];
    if rest == [] then Ok(bal + tri) else TopUp(tri + bal, rest)
  }

  /** The whole run: a participant of another semester throws in the split. */
  function Partition(ps: seq<Participant>, jsFirst: seq<nat>, jsThird: seq<nat>): Result<seq<Team>>
    requires FisherYates.ValidChoices(jsFirst, |OfSemester(ps, First)|)
    requires FisherYates.ValidChoices(jsThird, |OfSemester(ps, Third)|)
  {
    match SplitBySemester(ps)
    case Crash(fault) => Crash(fault)
    case Ok(buckets) =>
      Finalized(FisherYates.Shuffled(buckets.0, jsFirst), FisherYates.Shuffled(buckets.1, jsThird))
  }

  /** `finalizeTeams`, with the draws of `Math.random` given. */
  method FinalizeTeams(ps: seq<Participant>, jsFirst: seq<nat>, jsThird: seq<nat>) returns (r: Result<seq<Team>>)
    requires FisherYates.ValidChoices(jsFirst, |OfSemester(ps, First)|)
    requires FisherYates.ValidChoices(jsThird, |OfSemester(ps, Third)|)
    ensures r == Partition(ps, jsFirst, jsThird)
  {
    var split := SplitBySemester(ps);
    if split.Crash? {
      return Crash(split.fault);
    }
    var firstArr := ToArray(split.value.0);
    var thirdArr := ToArray(split.value.1);
    FisherYates.ShuffleArray(firstArr, jsFirst);
    FisherYates.ShuffleArray(thirdArr, jsThird);
    var f, th := firstArr[..], thirdArr[..];
    var teams, first, third, teamId := PopPairs(f, th);
    var remaining := first + third;
    ghost var bal, u := teams, remaining;
    BalancedFull(f, th, |bal|);
    teams, remaining, teamId := PopTriples(teams, remaining, teamId);
    ghost var tri := Triples(u, |bal|, TripleCount(|u|));
    TriplesSized(u, |bal|, TripleCount(|u|));
    r := DistributeRest(teams, remaining, bal, tri);
    assert r == Finalized(f, th);
  }

  /** Step 1: `while (first.length >= 2 && third.length >= 2)`, numbering
      the teams with `teamId++`. */
  method PopPairs(f: seq<Participant>, th: seq<Participant>)
      returns (teams: seq<Team>, first: seq<Participant>, third: seq<Participant>, teamId: int)
    ensures var k := BalancedCount(|f|, |th|);
      teams == Balanced(f, th, k) && first + third == Remaining(f, th) &&
      first == f[..|f| - 2 * k] && third == th[..|th| - 2 * k] && teamId == k + 1
  {
    first, third := f, th;
    teams := [];
    teamId := 1;
    while |first| >= 2 && |third| >= 2
      invariant 1 <= teamId && 2 * (teamId - 1) <= |f| && 2 * (teamId - 1) <= |th|
      invariant first == f[..|f| - 2 * (teamId - 1)] && third == th[..|th| - 2 * (teamId - 1)]
      invariant teams == Balanced(f, th, teamId - 1)
      decreases |first|
    {
      BalancedSnoc(f, th, teamId - 1);
      var a := first[|first| - 1];
      first := first[..|first| - 1];
      var b := first[|first| - 1];
      first := first[..|first| - 1];
      var c := third[|third| - 1];
      third := third[..|third| - 1];
      var d := third[|third| - 1];
      third := third[..|third| - 1];
      teams := teams + [Team(teamId, [a, b, c, d])];
      teamId := teamId + 1;
    }
  }

  /** Step 2: `while (remaining.length >= 3)`, three pops per team. */
  method PopTriples(bal: seq<Team>, u: seq<Participant>, startId: int)
      returns (teams: seq<Team>, remaining: seq<Participant>, teamId: int)
    requires startId == |bal| + 1
    ensures var m := TripleCount(|u|);
      teams == bal + Triples(u, |bal|, m) && remaining == u[..|u| - 3 * m] && teamId == |bal| + m + 1
  {
    teams, remaining, teamId := bal, u, startId;
    ghost var i := 0;
    assert u[..|u|] == u;
    while |remaining| >= 3
      invariant 3 * i <= |u| && teamId == |bal| + i + 1
      invariant remaining == u[..|u| - 3 * i]
      invariant teams == bal + Triples(u, |bal|, i)
    {
      TriplesSnoc(u, |bal|, i);
      var a := remaining[|remaining| - 1];
      remaining := remaining[..|remaining| - 1];
      var b := remaining[|remaining| - 1];
      remaining := remaining[..|remaining| - 1];
      var c := remaining[|remaining| - 1];
      remaining := remaining[..|remaining| - 1];
      teams := teams + [Team(teamId, [a, b, c])];
      teamId := teamId + 1;
      i := i + 1;
    }
  }

  /** Step 3: sort by size, then push the one or two participants left
      onto the teams at index 0 and 1. */
  method DistributeRest(teams: seq<Team>, remaining: seq<Participant>, ghost bal: seq<Team>, ghost tri: seq<Team>)
      returns (r: Result<seq<Team>>)
    requires teams == bal + tri && Full(bal) && StableSort.AllKey(tri, SizeKey, 3.0) && |remaining| <= 2
    ensures r == if remaining == [] then Ok(teams) else TopUp(tri + bal, remaining)
  {
    var sorted := teams;
    if |remaining| == 2 {
      var participant1 := remaining[1];
      var participant2 := remaining[0];
      TriplesFirst(bal, tri);
      sorted := StableSort.Sort(sorted, SizeKey);
      if |sorted| == 0 {
        return Crash(NoTeamAt(0));
      }
      sorted := sorted[0 := Joined(sorted[0], participant1)];
      if |sorted| == 1 {
        return Crash(NoTeamAt(1));
      }
      sorted := sorted[1 := Joined(sorted[1], participant2)];
    } else if |remaining| == 1 {
      var participant := remaining[0];
      TriplesFirst(bal, tri);
      sorted := StableSort.Sort(sorted, SizeKey);
      if |sorted| == 0 {
        return Crash(NoTeamAt(0));
      }
      sorted := sorted[0 := Joined(sorted[0], participant)];
    }
    return Ok(sorted);
  }

  lemma TriplesSnoc(u: seq<Participant>, k: nat, i: nat)
    requires 3 * i + 3 <= |u|
    ensures Triples(u, k, i + 1) == Triples(u, k, i) + [TripleTeam(u, k, i)]
  {
  }

  /** Every team of the second phase has three members. */
  lemma TriplesSized(u: seq<Participant>, k: nat, m: nat)
    requires 3 * m <= |u|
    ensures StableSort.AllKey(Triples(u, k, m), SizeKey, 3.0)
  {
  }

  /** The in-place sort moves the triples in front of the balanced teams
      and keeps each group in order. */
  lemma TriplesFirst(bal: seq<Team>, tri: seq<Team>)
    requires Full(bal) && StableSort.AllKey(tri, SizeKey, 3.0)
    ensures StableSort.Sort(bal + tri, SizeKey) == tri + bal
  {
    assert StableSort.AllKey(bal, SizeKey, 4.0);
    var none: seq<Team> := [];
    StableSort.SortBlocks(bal, tri, none, SizeKey, 4.0, 3.0);
    assert bal + tri + none == bal + tri && tri + bal + none == tri + bal;
  }
}
