/** TeamDisplay: registrations carry a name and a semester string; the
    component shuffles the First and Third name lists by sorting on random
    keys, pops 2 + 2 names per team while both lists have two, and puts
    every name left over into one last team. */
module TeamDisplay {
  import StableSort
  import opened BalancedPhase

  datatype Registration = Registration(name: string, semester: string)

  /** A name paired with the random number it is sorted by. */
  datatype Keyed = Keyed(item: string, sortKey: real)

  /** The names of the registrations whose semester is exactly `sem`
      (`filter` then `map`). */
  function NamesOf(regs: seq<Registration>, sem: string): (r: seq<string>)
    ensures |r| <= |regs|
  {
    if regs == [] then []
    else
      var rest := NamesOf(regs[..|regs| - 1], sem);
      var last := regs[|regs| - 1];
      if last.semester == sem then rest + [last.name] else rest
  }

  /** The names of every registration for First or Third, in roster order. */
  function KnownNames(regs: seq<Registration>): seq<string>
  {
    if regs == [] then []
    else
      var rest := KnownNames(regs[..|regs| - 1]);
      var last := regs[|regs| - 1];
      if last.semester == "First" || last.semester == "Third" then rest + [last.name] else rest
  }

  function Tagged(names: seq<string>, keys: seq<real>): (r: seq<Keyed>)
    requires |keys| == |names|
    ensures |r| == |names|
  {
    seq(|names|, i requires 0 <= i < |names| => Keyed(names[i], keys[i]))
  }

  function Items(ks: seq<Keyed>): (r: seq<string>)
    ensures |r| == |ks|
  {
    seq(|ks|, i requires 0 <= i < |ks| => ks[i].item)
  }

  function SortKey(k: Keyed): real { k.sortKey }

  /** `shuffleArray`: tag each name with `Math.random()` (here `keys`),
      sort on the tag with `a.sort - b.sort`, drop the tags. */
  function KeyedShuffle(names: seq<string>, keys: seq<real>): seq<string>
    requires |keys| == |names|
  {
    Items(StableSort.Sort(Tagged(names, keys), SortKey))
  }

  /** Team `i` of the loop: two pops off the First list, two off Third. */
  function NameTeam<T>(f: seq<T>, t: seq<T>, i: nat): seq<T>
    requires 2 * i + 2 <= |f| && 2 * i + 2 <= |t|
  {
    [f[|f| - 1 - 2 * i], f[|f| - 2 - 2 * i], t[|t| - 1 - 2 * i], t[|t| - 2 - 2 * i]]
  }

  function NameTeams<T>(f: seq<T>, t: seq<T>, k: nat): (r: seq<seq<T>>)
    requires 2 * k <= |f| && 2 * k <= |t|
    ensures |r| == k
  {
    seq(k, i requires 0 <= i < k => NameTeam(f, t, i))
  }

  /** `[...firstSem, ...thirdSem]` once the loop stops. */
  function Leftovers(f: seq<string>, t: seq<string>): seq<string>
  {
    var k := BalancedCount(|f|, |t|);
    f[..|f| - 2 * k] + t[..|t| - 2 * k]
  }

  /** The teams `handleShuffle` stores for shuffled lists `f` and `t`. */
  function DisplayTeams(f: seq<string>, t: seq<string>): seq<seq<string>>
  {
    var k := BalancedCount(|f|, |t|);
    var rest := Leftovers(f, t);
    NameTeams(f, t, k) + (if rest == [] then [] else [rest])
  }

  /** All the names of a team list, team after team. */
  function Concat<T>(ts: seq<seq<T>>): seq<T>
  {
    if ts == [] then [] else Concat(ts[..|ts| - 1]) + ts[|ts| - 1]
  }

  /** The button is disabled below four registrations. */
  predicate GenerateEnabled(regs: seq<Registration>)
  {
    |regs| >= 4
  }

  /** `handleShuffle`, with the random sort keys of each list given. */
  method HandleShuffle(regs: seq<Registration>, keysFirst: seq<real>, keysThird: seq<real>)
      returns (newTeams: seq<seq<string>>)
    requires |keysFirst| == |NamesOf(regs, "First")| && |keysThird| == |NamesOf(regs, "Third")|
    ensures newTeams == DisplayTeams(KeyedShuffle(NamesOf(regs, "First"), keysFirst),
                                     KeyedShuffle(NamesOf(regs, "Third"), keysThird))
  {
    var firstSem := KeyedShuffle(NamesOf(regs, "First"), keysFirst);
    var thirdSem := KeyedShuffle(NamesOf(regs, "Third"), keysThird);
    ghost var f, t := firstSem, thirdSem;
    newTeams, firstSem, thirdSem := PopNameTeams(firstSem, thirdSem);
    var leftovers := firstSem + thirdSem;
    if |leftovers| > 0 {
      newTeams := newTeams + [leftovers];
    }
  }

  /** The `while (firstSem.length >= 2 && thirdSem.length >= 2)` loop. A
      pop there never comes back `undefined`, and `|| ''` only swaps an
      empty name for an empty name, so the fallback is left out. */
  method PopNameTeams(f: seq<string>, t: seq<string>)
      returns (newTeams: seq<seq<string>>, firstSem: seq<string>, thirdSem: seq<string>)
    ensures var k := BalancedCount(|f|, |t|);
      newTeams == NameTeams(f, t, k) && firstSem + thirdSem == Leftovers(f, t)
  {
    firstSem, thirdSem := f, t;
    newTeams := [];
    while |firstSem| >= 2 && |thirdSem| >= 2
      invariant 2 * |newTeams| <= |f| && 2 * |newTeams| <= |t|
      invariant firstSem == f[..|f| - 2 * |newTeams|] && thirdSem == t[..|t| - 2 * |newTeams|]
      invariant newTeams == NameTeams(f, t, |newTeams|)
      decreases |firstSem|
    {
      NameTeamsSnoc(f, t, |newTeams|);
      var a := firstSem[|firstSem| - 1];
      firstSem := firstSem[..|firstSem| - 1];
      var b := firstSem[|firstSem| - 1];
      firstSem := firstSem[..|firstSem| - 1];
      var c := thirdSem[|thirdSem| - 1];
      thirdSem := thirdSem[..|thirdSem| - 1];
      var d := thirdSem[|thirdSem| - 1];
      thirdSem := thirdSem[..|thirdSem| - 1];
      newTeams := newTeams + [[a, b, c, d]];
    }
  }

  lemma NameTeamsSnoc<T>(f: seq<T>, t: seq<T>, i: nat)
    requires 2 * i + 2 <= |f| && 2 * i + 2 <= |t|
    ensures NameTeams(f, t, i + 1) == NameTeams(f, t, i) + [NameTeam(f, t, i)]
  {
  }

  lemma ItemsConcat(a: seq<Keyed>, b: seq<Keyed>)
    ensures Items(a + b) == Items(a) + Items(b)
  {
  }

  /** Dropping the tags of two rearrangements of the same tagged names
      gives two rearrangements of the same names. */
  lemma {:induction false} ItemsPermute(a: seq<Keyed>, b: seq<Keyed>)
    requires multiset(a) == multiset(b)
    ensures multiset(Items(a)) == multiset(Items(b))
    decreases |a|
  {
    if a == [] {
      assert |multiset(b)| == 0;
    } else {
      var init, x := a[..|a| - 1], a[|a| - 1];
      assert a == init + [x];
      assert x in multiset(b);
      var i :| 0 <= i < |b| && b[i] == x;
      var rest := b[..i] + b[i + 1..];
      assert multiset(init) == multiset(rest) by {
        RemoveAt(b, i);
        assert multiset(init) == multiset(a) - multiset{x};
      }
      ItemsPermute(init, rest);
      ItemsSnoc(init, x);
      ItemsRemoveAt(b, i);
    }
  }

  lemma ItemsSnoc(init: seq<Keyed>, x: Keyed)
    ensures multiset(Items(init + [x])) == multiset(Items(init)) + multiset{x.item}
  {
    ItemsConcat(init, [x]);
    assert Items([x]) == [x.item];
  }

  lemma RemoveAt<T>(b: seq<T>, i: nat)
    requires i < |b|
    ensures multiset(b[..i] + b[i + 1..]) == multiset(b) - multiset{b[i]}
  {
    assert b == b[..i] + [b[i]] + b[i + 1..];
  }

  /** The names of a list are those of the list without entry `i`, and
      the name of entry `i`. */
  lemma ItemsRemoveAt(b: seq<Keyed>, i: nat)
    requires i < |b|
    ensures multiset(Items(b)) == multiset(Items(b[..i] + b[i + 1..])) + multiset{b[i].item}
  {
    assert b == b[..i] + [b[i]] + b[i + 1..];
    ItemsConcat(b[..i] + [b[i]], b[i + 1..]);
    ItemsConcat(b[..i], [b[i]]);
    ItemsConcat(b[..i], b[i + 1..]);
  }

  /** `shuffleArray` returns a rearrangement of its argument: same length,
      same names, each as often. */
  lemma ShufflePermutes(names: seq<string>, keys: seq<real>)
    requires |keys| == |names|
    ensures |KeyedShuffle(names, keys)| == |names|
    ensures multiset(KeyedShuffle(names, keys)) == multiset(names)
  {
    var tagged := Tagged(names, keys);
    StableSort.SortPermutes(tagged, SortKey);
    ItemsPermute(StableSort.Sort(tagged, SortKey), tagged);
    assert Items(tagged) == names;
  }

  /** The names come out in ascending order of their random keys: a name
      ends up at a position no later than any name with a larger key. */
  lemma ShuffleByKeys(names: seq<string>, keys: seq<real>)
    requires |keys| == |names|
    ensures var sorted := StableSort.Sort(Tagged(names, keys), SortKey);
      Items(sorted) == KeyedShuffle(names, keys) &&
      multiset(sorted) == multiset(Tagged(names, keys)) &&
      forall i, j :: 0 <= i < j < |sorted| ==> sorted[i].sortKey <= sorted[j].sortKey
  {
    StableSort.SortPermutes(Tagged(names, keys), SortKey);
    StableSort.SortSorted(Tagged(names, keys), SortKey);
  }

  lemma {:induction false} ConcatAppend<T>(a: seq<seq<T>>, b: seq<seq<T>>)
    ensures Concat(a + b) == Concat(a) + Concat(b)
    decreases |b|
  {
    if b == [] {
      assert a + b == a;
    } else {
      assert (a + b)[..|a + b| - 1] == a + b[..|b| - 1];
      ConcatAppend(a, b[..|b| - 1]);
    }
  }

  /** The 4-name teams hold the last `2 * k` names of each list: the
      suffixes at `a` and `b`. */
  lemma {:induction false} NameTeamsMembers<T>(f: seq<T>, t: seq<T>, k: nat, a: nat, b: nat)
    requires 2 * k <= |f| && 2 * k <= |t| && a == |f| - 2 * k && b == |t| - 2 * k
    ensures multiset(Concat(NameTeams(f, t, k))) == multiset(f[a..]) + multiset(t[b..])
    decreases k
  {
    if k == 0 {
      assert NameTeams(f, t, k) == [] && f[a..] == [] && t[b..] == [];
    } else {
      var n, a', b' := k - 1, a + 2, b + 2;
      NameTeamsMembers(f, t, n, a', b');
      NameTeamsLast(f, t, n, k, a, b);
      PoppedStep(Concat(NameTeams(f, t, k)), Concat(NameTeams(f, t, n)), f, t, a, b, a', b');
    }
  }

  /** From `n` name teams to `k = n + 1`: the last team adds a pair of
      First names, last first, and a pair of Third names. */
  lemma NameTeamsLast<T>(f: seq<T>, t: seq<T>, n: nat, k: nat, a: nat, b: nat)
    requires k == n + 1 && 2 * k <= |f| && 2 * k <= |t|
    requires a == |f| - 2 * k && b == |t| - 2 * k
    ensures multiset(Concat(NameTeams(f, t, k))) ==
      multiset(Concat(NameTeams(f, t, n))) + multiset([f[a + 1], f[a]] + [t[b + 1], t[b]])
  {
    NameTeamsSnoc(f, t, n);
    NameTeamPairs(f, t, n, a, b);
    ConcatSnocMultiset(NameTeams(f, t, n), NameTeam(f, t, n));
  }

  lemma ConcatSnocMultiset<T>(ts: seq<seq<T>>, x: seq<T>)
    ensures multiset(Concat(ts + [x])) == multiset(Concat(ts)) + multiset(x)
  {
    ConcatAppend(ts, [x]);
    assert [x][..0] == [];
  }

  lemma NameTeamPairs<T>(f: seq<T>, t: seq<T>, i: nat, a: nat, b: nat)
    requires 2 * i + 2 <= |f| && 2 * i + 2 <= |t|
    requires a == |f| - 2 * i - 2 && b == |t| - 2 * i - 2
    ensures NameTeam(f, t, i) == [f[a + 1], f[a]] + [t[b + 1], t[b]]
  {
  }

  /** Every name of both lists is in exactly one team. */
  lemma DisplayMembers(f: seq<string>, t: seq<string>)
    ensures multiset(Concat(DisplayTeams(f, t))) == multiset(f) + multiset(t)
  {
    var k := BalancedCount(|f|, |t|);
    BalancedCountFits(|f|, |t|);
    var rest := Leftovers(f, t);
    var full := NameTeams(f, t, k);
    assert rest == f[..|f| - 2 * k] + t[..|t| - 2 * k];
    NameTeamsMembers(f, t, k, |f| - 2 * k, |t| - 2 * k);
    ShareBuckets(f, t, |f| - 2 * k, |t| - 2 * k, Concat(full));
    assert multiset(Concat(full)) + multiset(rest) == multiset(f) + multiset(t);
    LastTeam(full, rest);
  }

  /** Appending the leftover team, if there is one, adds exactly the leftovers. */
  lemma LastTeam(full: seq<seq<string>>, rest: seq<string>)
    ensures multiset(Concat(full + (if rest == [] then [] else [rest]))) == multiset(Concat(full)) + multiset(rest)
  {
    if rest == [] {
      assert full + [] == full;
    } else {
      assert (full + [rest])[..|full|] == full;
    }
  }

  /** `k` teams of four, 2 First names then 2 Third names, and one more
      team holding all `|f| + |t| - 4k` names left over, if there are any:
      the unpaired First names then the unpaired Third names, and of one of
      the two semesters at most one name, since otherwise the loop would
      have formed another team. */
  lemma DisplayShape(f: seq<string>, t: seq<string>)
    ensures var ts := DisplayTeams(f, t);
      var k := BalancedCount(|f|, |t|);
      var n := |f| + |t| - 4 * k;
      4 * k <= |f| + |t| &&
      |ts| == k + (if n > 0 then 1 else 0) &&
      (forall i :: 0 <= i < k ==> |ts[i]| == 4 && ts[i][0] in f && ts[i][1] in f && ts[i][2] in t && ts[i][3] in t) &&
      (n > 0 ==> |ts[k]| == n && ts[k] == f[..|f| - 2 * k] + t[..|t| - 2 * k] &&
                 (|f| - 2 * k < 2 || |t| - 2 * k < 2))
  {
    BalancedCountFits(|f|, |t|);
  }

  /** Which names end up in teams: those of the registrations for First or
      Third; any other semester string is silently left out. */
  lemma {:induction false} NamesBySemester(regs: seq<Registration>)
    ensures multiset(NamesOf(regs, "First")) + multiset(NamesOf(regs, "Third")) == multiset(KnownNames(regs))
  {
    if regs != [] {
      NamesBySemester(regs[..|regs| - 1]);
    }
  }

  /** The whole click, for any random keys: the teams hold exactly the
      names of the First and Third registrations, `k` of them in fours and
      the rest together in one last team. */
  lemma HandleShuffleMembers(regs: seq<Registration>, keysFirst: seq<real>, keysThird: seq<real>)
    requires |keysFirst| == |NamesOf(regs, "First")| && |keysThird| == |NamesOf(regs, "Third")|
    ensures var f := KeyedShuffle(NamesOf(regs, "First"), keysFirst);
      var t := KeyedShuffle(NamesOf(regs, "Third"), keysThird);
      multiset(Concat(DisplayTeams(f, t))) == multiset(KnownNames(regs)) &&
      |f| == |NamesOf(regs, "First")| && |t| == |NamesOf(regs, "Third")|
  {
    var f := KeyedShuffle(NamesOf(regs, "First"), keysFirst);
    var t := KeyedShuffle(NamesOf(regs, "Third"), keysThird);
    ShufflePermutes(NamesOf(regs, "First"), keysFirst);
    ShufflePermutes(NamesOf(regs, "Third"), keysThird);
    DisplayMembers(f, t);
    NamesBySemester(regs);
  }

  /** What the disabled button withholds: with fewer than four
      registrations no 4-name team could be formed, so a click could only
      have produced the single team of leftovers (or nothing). */
  lemma DisabledLosesNoFullTeam(regs: seq<Registration>, keysFirst: seq<real>, keysThird: seq<real>)
    requires |keysFirst| == |NamesOf(regs, "First")| && |keysThird| == |NamesOf(regs, "Third")|
    requires !GenerateEnabled(regs)
    ensures var ts := DisplayTeams(KeyedShuffle(NamesOf(regs, "First"), keysFirst),
                                   KeyedShuffle(NamesOf(regs, "Third"), keysThird));
      |ts| <= 1 && forall i :: 0 <= i < |ts| ==> |ts[i]| < 4
  {
    var f := KeyedShuffle(NamesOf(regs, "First"), keysFirst);
    var t := KeyedShuffle(NamesOf(regs, "Third"), keysThird);
    HandleShuffleMembers(regs, keysFirst, keysThird);
    NamesBySemester(regs);
    KnownNamesBound(regs);
    DisplayShape(f, t);
  }

  lemma {:induction false} KnownNamesBound(regs: seq<Registration>)
    ensures |NamesOf(regs, "First")| + |NamesOf(regs, "Third")| <= |regs|
  {
    if regs != [] {
      KnownNamesBound(regs[..|regs| - 1]);
    }
  }
}
