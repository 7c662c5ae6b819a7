/** Scoretable: the judging dashboard. Each row is a team with a name and
    one score per criterion; the total adds the four scores, the score
    inputs are clamped at the criterion's maximum, and the ranking sorts a
    copy of the rows by total, highest first. */
module Scoretable {
  import StableSort

  datatype Criterion = Presentation | UiUx | Creativity | Qna

  /** `criteriaColumns`, in table order; each has `maxScore: 5`. */
  const Criteria: seq<Criterion> := [Presentation, UiUx, Creativity, Qna]
  const MaxScore: real := 5.0

  /** A score cell as JavaScript holds it: absent from the row object, a
      number, or `NaN` (what `Number` makes of text that is no number). */
  datatype Score = Missing | NotANumber | Num(value: real)

  datatype ScoreRow = ScoreRow(id: int, teamName: string, scores: map<Criterion, Score>)

  /** The state the component starts with: one row with no scores. */
  const InitialTeams: seq<ScoreRow> := [ScoreRow(1, "", map[])]

  function Lookup(row: ScoreRow, c: Criterion): Score
  {
    if c in row.scores then row.scores[c] else Missing
  }

  /** `Number(team[col.key]) || 0`: a missing or non-numeric cell counts 0. */
  function Points(s: Score): real
  {
    if s.Num? then s.value else 0.0
  }

  function SumOver(row: ScoreRow, cs: seq<Criterion>): real
  {
    if cs == [] then 0.0 else SumOver(row, cs[..|cs| - 1]) + Points(Lookup(row, cs[|cs| - 1]))
  }

  /** `calculateTotalScore`: the reduce over the four criteria. */
  function Total(row: ScoreRow): real
  {
    SumOver(row, Criteria)
  }

  lemma TotalUnfold(row: ScoreRow)
    ensures Total(row) == Points(Lookup(row, Presentation)) + Points(Lookup(row, UiUx)) +
                          Points(Lookup(row, Creativity)) + Points(Lookup(row, Qna))
  {
    var c1 := [Presentation];
    var c2 := c1 + [UiUx];
    var c3 := c2 + [Creativity];
    assert c1[..0] == [] && c2[..1] == c1 && c3[..2] == c2 && Criteria[..3] == c3;
    assert SumOver(row, c1) == Points(Lookup(row, Presentation));
    assert SumOver(row, c2) == SumOver(row, c1) + Points(Lookup(row, UiUx));
    assert SumOver(row, c3) == SumOver(row, c2) + Points(Lookup(row, Creativity));
  }

  /** The score input's `Math.min(Number(value), col.maxScore)`: above the
      maximum becomes the maximum, `NaN` stays `NaN`, nothing is raised. */
  function ClampInput(n: Score): Score
    requires n != Missing
  {
    if n.NotANumber? then NotANumber
    else if n.value < MaxScore then n else Num(MaxScore)
  }

  /** A clamped input is at most the maximum, is the input itself when that
      is at most the maximum, and a negative input passes unchanged. */
  lemma ClampMeaning(n: Score)
    requires n != Missing
    ensures Points(ClampInput(n)) <= MaxScore
    ensures n.Num? && n.value <= MaxScore ==> ClampInput(n) == n
    ensures n.Num? && n.value > MaxScore ==> ClampInput(n) == Num(MaxScore)
    ensures n.NotANumber? ==> Points(ClampInput(n)) == 0.0
  {
  }

  /** Every cell is at most the maximum. */
  predicate Capped(row: ScoreRow)
  {
    forall c :: Points(Lookup(row, c)) <= MaxScore
  }

  /** A row of capped cells totals at most 20; with no lower clamp, a
      negative input brings the total below 0. */
  lemma TotalBounds(row: ScoreRow)
    ensures Capped(row) ==> Total(row) <= 4.0 * MaxScore
    ensures (Lookup(row, Qna) == Num(-1.0) && Points(Lookup(row, Presentation)) <= 0.0 &&
             Points(Lookup(row, UiUx)) <= 0.0 && Points(Lookup(row, Creativity)) <= 0.0) ==>
            Total(row) < 0.0
  {
    TotalUnfold(row);
  }

  /** `addTeam`: a row with id `length + 1`, no name and every score 0. */
  function AddTeam(teams: seq<ScoreRow>): seq<ScoreRow>
  {
    teams + [ScoreRow(|teams| + 1, "", map[Presentation := Num(0.0), UiUx := Num(0.0),
                                          Creativity := Num(0.0), Qna := Num(0.0)])]
  }

  lemma AddTeamMeaning(teams: seq<ScoreRow>)
    ensures var r := AddTeam(teams);
      |r| == |teams| + 1 && r[..|teams|] == teams && r[|teams|].id == |teams| + 1 &&
      r[|teams|].teamName == "" && Total(r[|teams|]) == 0.0 && Capped(r[|teams|])
  {
    TotalUnfold(AddTeam(teams)[|teams|]);
  }

  /** `removeTeam`: `teams.filter((_, index) => index !== indexToRemove)`. */
  function RemoveTeam(teams: seq<ScoreRow>, indexToRemove: int): seq<ScoreRow>
  {
    if teams == [] then []
    else
      var n := |teams| - 1;
      RemoveTeam(teams[..n], indexToRemove) + (if n == indexToRemove then [] else [teams[n]])
  }

  /** Exactly the row at the index goes and the rest keep their order; an
      index with no row changes nothing. */
  lemma {:induction false} RemoveTeamMeaning(teams: seq<ScoreRow>, i: int)
    ensures 0 <= i < |teams| ==> RemoveTeam(teams, i) == teams[..i] + teams[i + 1..]
    ensures !(0 <= i < |teams|) ==> RemoveTeam(teams, i) == teams
  {
    if teams != [] {
      var n := |teams| - 1;
      RemoveTeamMeaning(teams[..n], i);
      if 0 <= i < n {
        assert teams[..n][..i] == teams[..i];
        assert teams[..n][i + 1..] + [teams[n]] == teams[i + 1..];
      } else if i == n {
        assert teams[..i] + teams[i + 1..] == teams[..n];
      } else {
        assert teams[..n] + [teams[n]] == teams;
      }
    }
  }

  /** With ids numbered by position, removing the first row and adding one
      gives two rows the same id. */
  lemma DuplicateIdAfterRemove(teams: seq<ScoreRow>)
    requires |teams| >= 2 && teams[|teams| - 1].id == |teams|
    ensures var r := AddTeam(RemoveTeam(teams, 0));
      |r| == |teams| && r[|r| - 2].id == r[|r| - 1].id
  {
    RemoveTeamMeaning(teams, 0);
  }

  /** The change `updateTeam` writes into a row. */
  datatype Update = Rename(name: string) | SetScore(criterion: Criterion, score: Score)

  function Updated(row: ScoreRow, u: Update): ScoreRow
  {
    match u
    case Rename(name) => row.(teamName := name)
    case SetScore(c, s) => row.(scores := row.scores[c := s])
  }

  /** `updateTeam`: copy the rows, then replace the one at `index` by a copy
      with the one field set. */
  method UpdateTeam(teams: seq<ScoreRow>, index: int, u: Update) returns (newTeams: seq<ScoreRow>)
    requires 0 <= index < |teams|
    ensures |newTeams| == |teams|
    ensures forall j :: 0 <= j < |teams| && j != index ==> newTeams[j] == teams[j]
    ensures newTeams[index].id == teams[index].id
    ensures u.Rename? ==> (newTeams[index].teamName == u.name &&
      forall c :: Lookup(newTeams[index], c) == Lookup(teams[index], c))
    ensures u.SetScore? ==> (newTeams[index].teamName == teams[index].teamName &&
      Lookup(newTeams[index], u.criterion) == u.score &&
      forall c :: c != u.criterion ==> Lookup(newTeams[index], c) == Lookup(teams[index], c))
  {
    var copy := new ScoreRow[|teams|](j requires 0 <= j < |teams| => teams[j]);
    copy[index] := Updated(copy[index], u);
    newTeams := copy[..];
  }

  /** Setting one score moves the total by the difference of the two
      cells' points. */
  lemma TotalAfterSetScore(row: ScoreRow, c: Criterion, s: Score)
    ensures Total(Updated(row, SetScore(c, s))) == Total(row) - Points(Lookup(row, c)) + Points(s)
  {
    TotalUnfold(row);
    TotalUnfold(Updated(row, SetScore(c, s)));
  }

  /** A clamped input keeps a capped row capped. */
  lemma ClampKeepsCapped(row: ScoreRow, c: Criterion, n: Score)
    requires Capped(row) && n != Missing
    ensures Capped(Updated(row, SetScore(c, ClampInput(n))))
  {
    ClampMeaning(n);
    var r := Updated(row, SetScore(c, ClampInput(n)));
    forall d
      ensures Points(Lookup(r, d)) <= MaxScore
    {
      if d != c {
        assert Lookup(r, d) == Lookup(row, d);
      }
    }
  }

  /** A row of `teamRankings`: the row and its total. */
  datatype RankedRow = RankedRow(row: ScoreRow, totalScore: real)

  function WithTotals(teams: seq<ScoreRow>): (r: seq<RankedRow>)
    ensures |r| == |teams|
  {
    seq(|teams|, i requires 0 <= i < |teams| => RankedRow(teams[i], Total(teams[i])))
  }

  /** The comparator `b.totalScore - a.totalScore` is the ascending order of
      the negated total. */
  function Descending(r: RankedRow): real
  {
    -r.totalScore
  }

  /** `teamRankings`. */
  function TeamRankings(teams: seq<ScoreRow>): seq<RankedRow>
  {
    StableSort.Sort(WithTotals(teams), Descending)
  }

  /** The ranking holds every row once with its own total, highest total
      first. */
  lemma RankingsMeaning(teams: seq<ScoreRow>)
    ensures var r := TeamRankings(teams);
      multiset(r) == multiset(WithTotals(teams)) &&
      (forall i, j :: 0 <= i < j < |r| ==> r[i].totalScore >= r[j].totalScore) &&
      (forall i :: 0 <= i < |r| ==> r[i].totalScore == Total(r[i].row))
  {
    var w := WithTotals(teams);
    var r := TeamRankings(teams);
    StableSort.SortPermutes(w, Descending);
    StableSort.SortSorted(w, Descending);
    forall i | 0 <= i < |r|
      ensures r[i].totalScore == Total(r[i].row)
    {
      assert r[i] in multiset(w);
    }
  }

  /** Rows already in ranking order come back in the same order, ties
      included. */
  lemma RankingsKeepRankedOrder(teams: seq<ScoreRow>)
    requires forall i, j :: 0 <= i < j < |teams| ==> Total(teams[i]) >= Total(teams[j])
    ensures TeamRankings(teams) == WithTotals(teams)
  {
    StableSort.SortOfSorted(WithTotals(teams), Descending);
  }
}
