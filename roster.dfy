/** Participants, teams and the failures the partitioners can raise.
    Shared by every team-partitioning component of the frontend. */
module Roster {
  import opened Optional

  /** The cohort a participant registered for. The partitioners' record type
      only admits "First" and "Third"; any other stored value is `Other`. */
  datatype Semester = First | Third | Other(text: string)

  /** A registered participant as fetched from the backend (`_id` is `dbId`). */
  datatype Participant = Participant(dbId: string, name: string, email: string, semester: Semester)

  /** A team as the partitioners build it: a numeric id and its members in
      insertion order. */
  datatype Team = Team(id: int, members: seq<Participant>)

  /** Why a partitioning run throws instead of producing teams. */
  datatype Fault =
    | UnknownSemester(text: string)  // `acc[participant.semester]` is undefined, so `.push` throws
    | NoTeamAt(index: nat)            // `teams[index]` is undefined, so `.members` throws

  /** The outcome of a run: the teams, or the TypeError that aborted it. */
  datatype Result<T> = Ok(value: T) | Crash(fault: Fault)

  function Size(t: Team): nat { |t.members| }

  /** All members of all teams, team after team. */
  function Flatten(ts: seq<Team>): seq<Participant>
  {
    if ts == [] then [] else Flatten(ts[..|ts| - 1]) + ts[|ts| - 1].members
  }

  lemma {:induction false} FlattenConcat(a: seq<Team>, b: seq<Team>)
    ensures Flatten(a + b) == Flatten(a) + Flatten(b)
    decreases |b|
  {
    if b == [] {
      assert a + b == a;
    } else {
      var n := |b|;
      assert (a + b)[..|a + b| - 1] == a + b[..n - 1];
      FlattenConcat(a, b[..n - 1]);
    }
  }

  lemma FlattenLast(ts: seq<Team>)
    requires ts != []
    ensures Flatten(ts) == Flatten(ts[..|ts| - 1]) + ts[|ts| - 1].members
  {
  }

  /** The members of a team list are those of all but its last team plus
      the last team's. */
  lemma FlattenLastMultiset(ts: seq<Team>, m: seq<Participant>)
    requires ts != [] && ts[|ts| - 1].members == m
    ensures multiset(Flatten(ts)) == multiset(Flatten(ts[..|ts| - 1])) + multiset(m)
  {
    FlattenLast(ts);
  }

  lemma FlattenCons(x: Team, a: seq<Team>)
    ensures Flatten([x] + a) == x.members + Flatten(a)
  {
    FlattenConcat([x], a);
    assert [x][..0] == [];
  }

  /** The participants of `ps` registered for semester `s` (`filter`). */
  function OfSemester(ps: seq<Participant>, s: Semester): (r: seq<Participant>)
    ensures forall p :: p in r ==> p.semester == s
    ensures forall p :: p in ps && p.semester == s ==> p in r
    ensures |r| <= |ps|
  {
    if ps == [] then []
    else OfSemester(ps[..|ps| - 1], s) + (if ps[|ps| - 1].semester == s then [ps[|ps| - 1]] else [])
  }

  /** The first participant whose semester is neither First nor Third. */
  function FirstOther(ps: seq<Participant>): (r: Option<Participant>)
    ensures r.Some? ==> r.value in ps && r.value.semester.Other?
    ensures r.None? <==> forall p :: p in ps ==> !p.semester.Other?
  {
    if ps == [] then None
    else
      match FirstOther(ps[..|ps| - 1])
      case Some(q) => Some(q)
      case None => if ps[|ps| - 1].semester.Other? then Some(ps[|ps| - 1]) else None
  }

  /** The `reduce` that sorts participants into the two semester buckets,
      in registration order; an `Other` semester makes `acc[semester]`
      undefined and the reduce throws at the first such participant. */
  function SplitBySemester(ps: seq<Participant>): (r: Result<(seq<Participant>, seq<Participant>)>)
    ensures r.Crash? <==> FirstOther(ps).Some?
    ensures r.Crash? ==> r.fault == UnknownSemester(FirstOther(ps).value.semester.text)
    ensures r.Ok? ==> r.value.0 == OfSemester(ps, First) && r.value.1 == OfSemester(ps, Third)
    ensures r.Ok? ==> multiset(r.value.0) + multiset(r.value.1) == multiset(ps)
  {
    if ps == [] then Ok(([], []))
    else
      var init := ps[..|ps| - 1];
      var p := ps[|ps| - 1];
      assert ps == init + [p];
      match SplitBySemester(init)
      case Crash(f) => Crash(f)
      case Ok(buckets) =>
        match p.semester
        case First => Ok((buckets.0 + [p], buckets.1))
        case Third => Ok((buckets.0, buckets.1 + [p]))
        case Other(text) => Crash(UnknownSemester(text))
  }

  function Min(a: int, b: int): int { if a <= b then a else b }

  /** `s` back to front: the order in which repeated `pop` removes it. */
  function Reversed<T>(s: seq<T>): (r: seq<T>)
    ensures |r| == |s|
  {
    if s == [] then [] else [s[|s| - 1]] + Reversed(s[..|s| - 1])
  }

  lemma ReversedSnoc<T>(s: seq<T>, x: T)
    ensures Reversed(s + [x]) == [x] + Reversed(s)
  {
    assert (s + [x])[..|s|] == s;
  }

  lemma {:induction false} ReversedCons<T>(x: T, s: seq<T>)
    ensures Reversed([x] + s) == Reversed(s) + [x]
    decreases |s|
  {
    if s != [] {
      var n := |s|;
      assert ([x] + s)[..n] == [x] + s[..n - 1];
      ReversedCons(x, s[..n - 1]);
      assert Reversed([x] + s) == [s[n - 1]] + Reversed([x] + s[..n - 1]);
    }
  }

  /** Popping `a + b` empties `b` first. */
  lemma {:induction false} ReversedConcat<T>(a: seq<T>, b: seq<T>)
    ensures Reversed(a + b) == Reversed(b) + Reversed(a)
    decreases |b|
  {
    if b == [] {
      assert a + b == a && Reversed(b) == [];
    } else {
      var m := |b|;
      assert (a + b)[..|a + b| - 1] == a + b[..m - 1];
      ReversedConcat(a, b[..m - 1]);
    }
  }

  lemma {:induction false} ReversedPermutes<T>(s: seq<T>)
    ensures multiset(Reversed(s)) == multiset(s)
    decreases |s|
  {
    if s != [] {
      ReversedPermutes(s[..|s| - 1]);
      assert s == s[..|s| - 1] + [s[|s| - 1]];
    }
  }

  lemma {:induction false} ReversedAt<T>(s: seq<T>, i: nat)
    requires i < |s|
    ensures Reversed(s)[i] == s[|s| - 1 - i]
    decreases |s|
  {
    if i > 0 {
      ReversedAt(s[..|s| - 1], i - 1);
    }
  }

  /** Reversing the teams does not change who is in them. */
  lemma {:induction false} FlattenReversed(ts: seq<Team>)
    ensures multiset(Flatten(Reversed(ts))) == multiset(Flatten(ts))
    decreases |ts|
  {
    if ts != [] {
      var n := |ts|;
      FlattenReversed(ts[..n - 1]);
      FlattenCons(ts[n - 1], Reversed(ts[..n - 1]));
    }
  }

  /** The counts `teamStats` shows: all participants, and those registered
      for First and for Third. */
  datatype Stats = Stats(total: nat, firstCount: nat, thirdCount: nat)

  function TeamStats(ps: seq<Participant>): (r: Stats)
    ensures r.firstCount + r.thirdCount <= r.total
    ensures r.firstCount + r.thirdCount == r.total <==> FirstOther(ps).None?
  {
    SemesterCounts(ps);
    Stats(|ps|, |OfSemester(ps, First)|, |OfSemester(ps, Third)|)
  }

  lemma {:induction false} SemesterCounts(ps: seq<Participant>)
    ensures |OfSemester(ps, First)| + |OfSemester(ps, Third)| <= |ps|
    ensures |OfSemester(ps, First)| + |OfSemester(ps, Third)| == |ps| <==> FirstOther(ps).None?
    decreases |ps|
  {
    if ps != [] {
      SemesterCounts(ps[..|ps| - 1]);
    }
  }

  /** When the split succeeds, the counts are the sizes of the two buckets. */
  lemma StatsMatchBuckets(ps: seq<Participant>)
    requires SplitBySemester(ps).Ok?
    ensures TeamStats(ps).firstCount == |SplitBySemester(ps).value.0|
    ensures TeamStats(ps).thirdCount == |SplitBySemester(ps).value.1|
    ensures TeamStats(ps).total == |SplitBySemester(ps).value.0| + |SplitBySemester(ps).value.1|
  {
    var r := SplitBySemester(ps);
    assert |multiset(r.value.0) + multiset(r.value.1)| == |multiset(ps)|;
  }

  /** A member as `saveTeams` posts it: the database `_id` is dropped. */
  datatype MemberRecord = MemberRecord(name: string, email: string, semester: Semester)
  datatype TeamRecord = TeamRecord(id: int, members: seq<MemberRecord>)

  function ToRecord(p: Participant): MemberRecord
  {
    MemberRecord(p.name, p.email, p.semester)
  }

  /** The `teams.map(...)` payload of `saveTeams`. */
  function SavePayload(ts: seq<Team>): (r: seq<TeamRecord>)
    ensures |r| == |ts|
    ensures forall i :: 0 <= i < |ts| ==> r[i].id == ts[i].id && |r[i].members| == |ts[i].members|
    ensures forall i, j :: 0 <= i < |ts| && 0 <= j < |ts[i].members| ==>
      r[i].members[j] == ToRecord(ts[i].members[j])
  {
    seq(|ts|, i requires 0 <= i < |ts| =>
      TeamRecord(ts[i].id, seq(|ts[i].members|, j requires 0 <= j < |ts[i].members| => ToRecord(ts[i].members[j]))))
  }

  /** Two team lists that differ only in the members' database ids post the
      same payload. */
  lemma PayloadIgnoresDbId(a: seq<Team>, b: seq<Team>)
    requires |a| == |b|
    requires forall i :: 0 <= i < |a| ==> a[i].id == b[i].id && |a[i].members| == |b[i].members|
    requires forall i, j :: 0 <= i < |a| && 0 <= j < |a[i].members| ==>
      a[i].members[j].name == b[i].members[j].name &&
      a[i].members[j].email == b[i].members[j].email &&
      a[i].members[j].semester == b[i].members[j].semester
    ensures SavePayload(a) == SavePayload(b)
  {
    var ra, rb := SavePayload(a), SavePayload(b);
    forall i | 0 <= i < |a| ensures ra[i] == rb[i] {
      assert ra[i].members == rb[i].members;
    }
  }
}
