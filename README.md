# Hackathon team formation, timers and registration — a Dafny model

The application runs a hackathon. Participants register with a name, an
e-mail address and a semester ("First" or "Third"). An administrator
shuffles them into teams, the teams are saved to a MongoDB-backed Express
API, judges score them, and countdowns and a presentation timer drive the
event itself.

This project models the logic of that application and proves what it
promises:

* **Team formation.** Six React components hold one of three
  partitioning algorithms.
  * FinalDivder, EnhancedReveal, Divider and Shu use the "cap four"
    algorithm: balanced teams of two First plus two Third, then leftovers
    placed into the smallest team until it has four members, opening a new
    team otherwise.
  * ShuffleTest uses the "cap five" algorithm: leftovers top up the
    smallest balanced team while it has fewer than five members.
  * FInalTeamForm uses the "triples" algorithm: balanced teams, then teams
    of three, then leftovers spread over the smallest teams.

  All three share these pieces:
  * the split of the roster by semester (`Roster`);
  * the Fisher–Yates shuffle, with the random draws as a parameter
    (`FisherYates`);
  * the stable `Array.prototype.sort` with a numeric comparator
    (`StableSort`);
  * the pop loop that builds balanced teams (`BalancedPhase`).

  Each algorithm is a method with the source's loops, proved equal to a
  specification function. Lemmas about that function state what a user can
  rely on: who ends up in which team, team sizes and ids, and when the
  component throws.
* **TeamDisplay.** A simpler shuffle-by-random-keys that shows names only
  (`TeamDisplay`).
* **Countdowns.** The countdown arithmetic of TImer, Final, RegisterTimer
  and HackathonRegistration (`Countdown`), and the Demo presentation timer
  (`Demo`). The number-to-text conversions they and the panels share,
  `${n}` and `padStart`, are in `JsText`.
* **Forms.** The registration form validation shared by Final and Adduser
  (`Registration`), and the minimal Form component (`QuickForm`).
* **Score table.** Scoring, clamping and ranking (`Scoretable`).
* **User list.** The Redux users slice (`UsersSlice`), and ViewUser's
  sorting and PDF layout (`ViewUser`).
* **Team management.** The team edit panels of Teammanagement and ViewTeam
  (`TeamPanels`).
* **Backend.** The two Express controllers (`TeamController`,
  `UserController`), with the JavaScript values and HTTP replies they work
  on (`Http`).

Randomness is modelled as parameters:
* the Fisher–Yates draws `js`, with `js[i] <= i`;
* TeamDisplay's random sort keys.

The database and the network are modelled as parameters too. A database
call's outcome is one of:
* `Done`;
* `NoDocument`;
* `Threw(code)`.

A failed network request is an outcome passed to the component.

A JavaScript `TypeError` is a `Crash` result. This includes reading
`acc[semester]` for an unknown semester, and reading a property of the
missing `teams[0]`.

## Model

| member | source | states |
|---|---|---|
| Roster.SplitBySemester | frontend/src/component/FinalDivder.tsx:105-111 | The reduce throws exactly when some participant's semester is neither First nor Third, naming the first such semester; otherwise the two buckets are the First and Third participants in roster order, and together they are the whole roster |
| Roster.TeamStats | frontend/src/component/ShuffleTest.tsx:133-139 | The First and Third counts never exceed the total, and add up to it exactly when nobody has another semester |
| Roster.SemesterCounts | frontend/src/component/FInalTeamForm.tsx:161-167 | Each count is the number of participants of that semester, and the counts sum to the roster size when every semester is known |
| Roster.StatsMatchBuckets | frontend/src/component/Shu.tsx:127-133 | When the split succeeds, the displayed counts are the sizes of the two buckets and add up to the total |
| Roster.SavePayload | frontend/src/component/FinalDivder.tsx:181-188 | The save request carries as many teams as there are, with the same ids and member counts, each member reduced to its name, email and semester in order |
| Roster.PayloadIgnoresDbId | frontend/src/component/Divider.tsx:173-180 | Two team lists that differ only in the members' database ids send the same payload |
| FisherYates.ShuffleArray | frontend/src/component/FinalDivder.tsx:96-102 | The in-place loop leaves the array equal to the Fisher–Yates shuffle of its old contents under the given draws |
| FisherYates.SwapPermutes | frontend/src/component/FInalTeamForm.tsx:86-92 | The destructuring swap exchanges the two slots, leaves every other slot alone and keeps the multiset |
| FisherYates.ShuffleStep | frontend/src/component/ShuffleTest.tsx:36-42 | One iteration (swap slot i with the drawn slot) keeps the eventual result of the loop |
| FisherYates.ShuffledPermutes | frontend/src/component/EnhancedReveal.tsx:133-139 | The shuffle only rearranges: same length, same multiset |
| FisherYates.EveryPermutationReachable | frontend/src/component/Divider.tsx:88-94 | Every rearrangement of the input is produced by some valid sequence of draws |
| FisherYates.DrawsDetermineOrdering | frontend/src/component/Shu.tsx:48-54 | On distinct elements, two draw sequences that give the same order are equal, so draws and orders correspond one to one |
| StableSort.SortPermutes | frontend/src/component/FinalDivder.tsx:147-149 | Sorting teams by size only reorders them |
| StableSort.SortSorted | frontend/src/component/ShuffleTest.tsx:102 | The result is in non-decreasing order of the key |
| StableSort.SortOfSorted | frontend/src/component/ShuffleTest.tsx:114 | A list already in key order comes back unchanged (the sort is stable) |
| StableSort.SortTwoBlocks | frontend/src/component/FInalTeamForm.tsx:143 | Two blocks of equal keys, the second with the smaller key, swap places with each block's order kept |
| StableSort.SortBlocks | frontend/src/component/EnhancedReveal.tsx:183-185 | A block of larger keys followed by a block of smaller equal keys sorts to the second block then the first, each in order |
| BalancedPhase.PopBalanced | frontend/src/component/FinalDivder.tsx:123-139 | The loop builds exactly the k = min(F div 2, T div 2) balanced teams, team i+1 holding the next two First pops then the next two Third pops, and leaves the untouched bucket prefixes |
| BalancedPhase.BalancedFull | frontend/src/component/Shu.tsx:86-96 | Every balanced team has exactly four members |
| BalancedPhase.BalancedMembers | frontend/src/component/EnhancedReveal.tsx:159-175 | The k balanced teams hold exactly the last 2k participants of each bucket |
| BalancedPhase.BalancedPlusRemaining | frontend/src/component/Divider.tsx:115-133 | The balanced teams plus the leftover list share out both buckets exactly, and F + T − 4k participants are left over |
| BalancedPhase.BalancedCountFits | frontend/src/component/Shu.tsx:80-83 | 2k never exceeds either bucket, so the loop's pops never run out |
| BalancedPhase.ArrangeFull | frontend/src/component/Divider.tsx:139-141 | Sorting a list of full teams by size leaves it unchanged |
| BalancedPhase.ShuffledBuckets | frontend/src/component/Shu.tsx:57-66 | After a successful split and shuffle, the buckets together are the roster, their sizes are the displayed counts, and each bucket holds only its semester |
| CapFourPartition.FormFinalTeams | frontend/src/component/FinalDivder.tsx:95-159 | The whole team formation under the given draws equals the cap-four partition of the roster, including its crashes |
| CapFourPartition.PlaceLeftovers | frontend/src/component/FinalDivder.tsx:144-159 | The leftover loop throws at `teams[0]` exactly when there are leftovers and no team; otherwise it yields the leftovers, Third before First and each bucket back to front, placed one by one into the sorted teams |
| CapFourPartition.PlaceStep | frontend/src/component/EnhancedReveal.tsx:180-195 | One iteration sorts the teams, adds the participant to the first team if it has fewer than four members, and otherwise appends a new team with id length + 1 |
| CapFourPartition.JoinNewest | frontend/src/component/FinalDivder.tsx:147-152 | When the newest leftover team is not full, it sorts to the front and the participant joins it |
| CapFourPartition.OpenAfterFull | frontend/src/component/FinalDivder.tsx:153-157 | When the newest team is full, the sorted front team is full and the participant opens a new team with the next id |
| CapFourPartition.GroupsShape | frontend/src/component/Divider.tsx:143-150 | Every leftover team but the newest is full, and the newest has one to four members |
| CapFourPartition.ArrangeSingle | frontend/src/component/Shu.tsx:104-106 | A new team of one sorts to the front of the full teams |
| CapFourFacts.GroupsFacts | frontend/src/component/Divider.tsx:136-151 | The leftover teams hold exactly the leftovers in placement order, with consecutive ids after the k balanced teams, four per full team plus the newest |
| CapFourFacts.SortedFront | frontend/src/component/Shu.tsx:104-115 | After each sort the team at index 0 is a smallest one and no team exceeds four, so a participant always joins a smallest team |
| CapFourFacts.PlacedShape | frontend/src/component/Shu.tsx:101-116 | After placement there are k + ceil(leftovers / 4) teams of one to four members, and at most one is not full |
| CapFourFacts.PlacedMembers | frontend/src/component/FinalDivder.tsx:144-159 | The placed teams hold the balanced teams' members plus every leftover, once each |
| CapFourFacts.PlacedIds | frontend/src/component/EnhancedReveal.tsx:190-193 | New teams take ids length + 1, so the ids stay a permutation of 1..n |
| CapFourFacts.PlacedKeepsBalanced | frontend/src/component/EnhancedReveal.tsx:165-175 | Every team with an id up to k is still the balanced team of that id |
| CapFourFacts.FinalTeamsMembers | frontend/src/component/EnhancedReveal.tsx:177-195 | The final teams hold the balanced members and the leftovers together, once each |
| CapFourFacts.LeftoverOrder | frontend/src/component/EnhancedReveal.tsx:177-181 | Third leftovers are placed before First ones, each bucket from its end |
| CapFourFacts.OkBuckets | frontend/src/component/Divider.tsx:97-103 | A successful split hands on buckets that together are the roster and each hold one semester |
| CapFourFacts.PartitionOutcome | frontend/src/component/FinalDivder.tsx:105-151 | Formation throws exactly when a semester is unknown (UnknownSemester) or there are participants but no balanced team (NoTeamAt(0)); an empty roster gives no teams |
| CapFourFacts.PartitionMembers | frontend/src/component/FinalDivder.tsx:141-159 | Every participant ends up in exactly one team |
| CapFourFacts.PartitionShape | frontend/src/component/FinalDivder.tsx:144-159 | There are k + ceil((N − 4k) / 4) teams, each with one to four members, and at most one is not full |
| CapFourFacts.PartitionIds | frontend/src/component/Divider.tsx:136-151 | The team ids are a permutation of 1..number of teams |
| CapFourFacts.PartitionBalanced | frontend/src/component/Divider.tsx:121-131 | Teams with ids up to k have four members, two First then two Third |
| CapFivePartition.FormTeams | frontend/src/component/ShuffleTest.tsx:36-123 | The whole team formation under the given draws equals the cap-five partition of the roster, including its crashes |
| CapFivePartition.PopGuarded | frontend/src/component/ShuffleTest.tsx:70-91 | The inner guard never fails, so the loop builds exactly the k balanced teams |
| CapFivePartition.RedistributeRemaining | frontend/src/component/ShuffleTest.tsx:100-120 | Throws at `teams[0]` exactly when there are leftovers and no team; otherwise the result is the arrangement after min(k, leftovers) top-ups, one leftover per team |
| CapFivePartition.RedistributeStep | frontend/src/component/ShuffleTest.tsx:105-114 | Before the loop stops, the front team is the next untouched balanced team with fewer than five members, and joining it and re-sorting gives the arrangement extended by one |
| CapFivePartition.MoveBehindFours | frontend/src/component/ShuffleTest.tsx:114 | The re-sort moves a team of five behind every team of four |
| CapFivePartition.RedistributedNoRoom | frontend/src/component/ShuffleTest.tsx:115-118 | The front team has five members only once every team has been topped up, so the `break` fires exactly when all teams are full |
| CapFivePartition.ToppedFive | frontend/src/component/ShuffleTest.tsx:109 | Every topped-up team has five members |
| CapFivePartition.RedistributedSorted | frontend/src/component/ShuffleTest.tsx:102-114 | The teams stay ordered by size |
| CapFivePartition.RedistributedIds | frontend/src/component/ShuffleTest.tsx:100-119 | Redistribution keeps the multiset of team ids |
| CapFivePartition.RedistributedTeam | frontend/src/component/ShuffleTest.tsx:106-111 | A topped-up team is a balanced team plus exactly one leftover |
| CapFivePartition.RedistributedMembers | frontend/src/component/ShuffleTest.tsx:105-119 | The teams hold the balanced members plus the first leftovers that fit |
| CapFivePartition.FiveTeamsAt | frontend/src/component/ShuffleTest.tsx:94-111 | Each team is a balanced team plus, for the first min(k, leftovers) ids, the leftover of the same index |
| CapFivePartition.FiveTeamsShape | frontend/src/component/ShuffleTest.tsx:100-120 | k teams sorted by size, each of four or five members, with ids a permutation of 1..k |
| CapFivePartition.FiveTeamsMembers | frontend/src/component/ShuffleTest.tsx:94-119 | The teams plus the dropped leftovers are the two buckets, and the teams hold 4k + min(k, leftovers) members |
| CapFivePartition.OkBuckets | frontend/src/component/ShuffleTest.tsx:45-51 | A successful formation comes from buckets that together are the roster and whose sizes are the displayed counts |
| CapFivePartition.PartitionOutcome | frontend/src/component/ShuffleTest.tsx:45-109 | Formation throws exactly when a semester is unknown (UnknownSemester) or there are participants but no balanced team (NoTeamAt(0)); an empty roster gives no teams |
| CapFivePartition.PartitionShape | frontend/src/component/ShuffleTest.tsx:100-120 | There are exactly k teams, sorted by size, of four or five members, with ids a permutation of 1..k |
| CapFivePartition.PartitionMembers | frontend/src/component/ShuffleTest.tsx:76-119 | The teams hold a sub-multiset of the roster of size 4k + min(k, N − 4k); nobody is dropped exactly when there are at most k leftovers |
| TriplesPartition.FinalizeTeams | frontend/src/component/FInalTeamForm.tsx:85-150 | The whole team formation under the given draws equals the triples partition of the roster, including its crashes |
| TriplesPartition.PopPairs | frontend/src/component/FInalTeamForm.tsx:112-123 | The while loop builds the k balanced teams and leaves the bucket prefixes and the next team id |
| TriplesPartition.PopTriples | frontend/src/component/FInalTeamForm.tsx:127-137 | The loop cuts the leftovers from the end into (leftovers div 3) teams of three, numbered after the balanced teams, and leaves the first leftovers mod 3 |
| TriplesPartition.DistributeRest | frontend/src/component/FInalTeamForm.tsx:139-150 | With no leftover the teams are returned unsorted; otherwise the sort puts the triples before the balanced teams and the leftovers top them up, or the code throws at a missing team |
| TriplesPartition.TriplesSized | frontend/src/component/FInalTeamForm.tsx:128-137 | Every triple team has three members |
| TriplesPartition.TriplesFirst | frontend/src/component/FInalTeamForm.tsx:143 | Sorting the balanced teams followed by the triples puts the triples first, each group in order |
| TriplesFacts.TriplesMembers | frontend/src/component/FInalTeamForm.tsx:128-137 | The triples hold exactly the last 3m leftovers |
| TriplesFacts.JoinedAt | frontend/src/component/FInalTeamForm.tsx:144-148 | Adding a participant to the team at an index adds exactly that member and keeps every id in place |
| TriplesFacts.TopUpMembers | frontend/src/component/FInalTeamForm.tsx:140-150 | A successful top-up adds exactly the remaining leftovers and keeps every id in place |
| TriplesFacts.TopUpShape | frontend/src/component/FInalTeamForm.tsx:143-149 | Sizes stay between three and five, and each team that received a leftover ends at most one member larger than every team that did not |
| TriplesFacts.TeamsBeforeTopUp | frontend/src/component/FInalTeamForm.tsx:113-137 | Before the top-up, the balanced teams and triples plus the last leftovers are both buckets exactly |
| TriplesFacts.IdsBeforeTopUp | frontend/src/component/FInalTeamForm.tsx:112-137 | Before the top-up the ids are 1..n in order of creation, and still a permutation of 1..n after the sort |
| TriplesFacts.FinalizedOutcome | frontend/src/component/FInalTeamForm.tsx:140-150 | The top-up throws exactly when a leftover has no team: one or two leftovers and no team (index 0), or two leftovers with one balanced team or five participants with none (index 1) |
| TriplesFacts.FinalizedMembers | frontend/src/component/FInalTeamForm.tsx:125-150 | When the top-up succeeds, the teams hold both buckets exactly |
| TriplesFacts.FinalizedShape | frontend/src/component/FInalTeamForm.tsx:128-150 | There are k + (leftovers div 3) teams of three to five members, and the teams that received a leftover end at most one larger than the others |
| TriplesFacts.FinalizedIds | frontend/src/component/FInalTeamForm.tsx:112-150 | The ids are a permutation of 1..n, and exactly 1..n in order of creation when the leftovers divide by three |
| TriplesFacts.OkBuckets | frontend/src/component/FInalTeamForm.tsx:94-103 | A successful formation comes from buckets that together are the roster and whose sizes are the displayed counts |
| TriplesFacts.PartitionOutcome | frontend/src/component/FInalTeamForm.tsx:94-149 | Formation throws exactly when a semester is unknown, or N is 1 or 2 (at index 0), or N is 5 with no balanced team or 6 with one (at index 1) |
| TriplesFacts.PartitionMembers | frontend/src/component/FInalTeamForm.tsx:111-150 | When formation succeeds every participant is in exactly one team |
| TriplesFacts.PartitionShape | frontend/src/component/FInalTeamForm.tsx:127-150 | There are k + (N − 4k) div 3 teams of three to five members, and the teams that received a leftover end at most one larger than the others |
| TriplesFacts.PartitionIds | frontend/src/component/FInalTeamForm.tsx:112-150 | The ids are a permutation of 1..number of teams |
| TeamDisplay.HandleShuffle | frontend/src/component/TeamDisplay.tsx:81-105 | The handler's teams are the display teams built from the random-key shuffles of the First and Third names |
| TeamDisplay.PopNameTeams | frontend/src/component/TeamDisplay.tsx:90-97 | The loop builds the k name teams, two First then two Third names each popped from the end, and leaves the remaining names |
| TeamDisplay.ShufflePermutes | frontend/src/component/TeamDisplay.tsx:69-74 | Sorting by random keys only rearranges the names |
| TeamDisplay.ShuffleByKeys | frontend/src/component/TeamDisplay.tsx:71-73 | The shuffled names are the names of the tagged list sorted by key: the same tagged entries, in non-decreasing key order |
| TeamDisplay.NameTeamsMembers | frontend/src/component/TeamDisplay.tsx:90-97 | The name teams hold exactly the last 2k names of each list |
| TeamDisplay.DisplayMembers | frontend/src/component/TeamDisplay.tsx:89-103 | The shown teams hold every First and Third name exactly once |
| TeamDisplay.LastTeam | frontend/src/component/TeamDisplay.tsx:100-103 | Adding the leftover names as one last team, only when any remain, adds exactly those names |
| TeamDisplay.DisplayShape | frontend/src/component/TeamDisplay.tsx:89-103 | k teams of four (two First names then two Third names), then, when n > 0 names are left, one team of those n: the unpaired First names then the unpaired Third names, with fewer than two names of one of the semesters |
| TeamDisplay.NamesBySemester | frontend/src/component/TeamDisplay.tsx:82-87 | The two filtered name lists together hold exactly the names of participants with a known semester |
| TeamDisplay.HandleShuffleMembers | frontend/src/component/TeamDisplay.tsx:82-103 | After shuffling, the teams hold exactly the names of the First and Third participants |
| TeamDisplay.DisabledLosesNoFullTeam | frontend/src/component/TeamDisplay.tsx:121 | While the button is disabled, shuffling would give at most one team, of fewer than four names |
| TeamDisplay.KnownNamesBound | frontend/src/component/TeamDisplay.tsx:82-87 | There are never more known names than participants |
| Countdown.SplitExact | frontend/src/component/TImer.tsx:14-19 | For a non-negative difference the parts are normal mixed-radix digits whose value is the difference in whole seconds |
| Countdown.SplitRecovers | frontend/src/component/RegisterTimer.tsx:29-32 | Conversely, normal parts plus any sub-second remainder split back into the same parts |
| Countdown.SplitPastDeadline | frontend/src/component/TImer.tsx:11-18 | Past the deadline the unguarded timer shows negative days, and hours, minutes and seconds between −24 or −60 and 0 |
| Countdown.SplitJustPast | frontend/src/component/TImer.tsx:15-18 | One millisecond past the deadline every part shows −1 |
| Countdown.FinalTickMeaning | frontend/src/component/Final.tsx:17-35 | Registration expires exactly when the difference is not positive, is urgent exactly when under four hours, and an expired tick shows zeros while keeping the urgency flag |
| Countdown.DaysShownIff | frontend/src/component/Final.tsx:57-59 | The days box is shown exactly when at least a day remains; otherwise three boxes are shown |
| Countdown.RegisterTickMatchesFinal | frontend/src/component/RegisterTimer.tsx:25-40 | The register timer shows the same parts and expiry as Final's tick: expired exactly when the difference is not positive, zeros then, the exact split otherwise |
| Countdown.HackathonTickMeaning | frontend/src/component/HackathonRegistration.tsx:26-42 | Before the deadline the parts are the exact split; afterwards the previous display stays |
| JsText.TwoDigitsMeaning | frontend/src/component/RegisterTimer.tsx:99 | Values below ten get a leading '0', larger values print as they are, the text has at least two characters, and it parses back to the value |
| JsText.ParseDecimal | frontend/src/component/Final.tsx:97 | Parsing the decimal text of a number gives the number back |
| Countdown.RegisterBoxesNotNegative | frontend/src/component/RegisterTimer.tsx:28-39 | The register timer's boxes are always in range and never negative |
| Countdown.TeamDetails.constructor | frontend/src/component/HackathonRegistration.tsx:18-23 | The team form starts with empty fields and three empty members |
| Countdown.TeamDetails.HandleInputChange | frontend/src/component/HackathonRegistration.tsx:45-61 | A member field update writes only that member's field; any other field is set alone; other state is unchanged |
| Demo.PresentationTimer.constructor | frontend/src/component/Demo.tsx:14-21 | The timer starts stopped in the presentation stage with the full time left; the totals default to 480 s and 240 s |
| Demo.PresentationTimer.ResetTimer | frontend/src/component/Demo.tsx:53-57 | Reset stops the timer, returns to the presentation stage and restores the full time |
| Demo.PresentationTimer.Toggle | frontend/src/component/Demo.tsx:146 | The button flips running and changes nothing else |
| Demo.PresentationTimer.StageOver | frontend/src/component/Demo.tsx:31-38 | At zero the presentation stage hands over to the demo stage with half the total time and keeps running; in the demo stage the timer stops where it is |
| Demo.DemoStartsOnWarning | frontend/src/component/Demo.tsx:14-51 | With the defaults, the demo stage starts on the warning time, so its warning bell rings at once |
| Demo.DemoStartBells | frontend/src/component/Demo.tsx:30-51 | For any props, the demo stage starts on the warning bell exactly when half the total time is the warning time, and on the final bell exactly when that half is 0 |
| Demo.RestartBells | frontend/src/component/Demo.tsx:30-57 | For any props, after the demo stage is paused and the timer reset, the warning bell rings exactly when the whole time is the warning time and the final bell exactly when it is 0; running out the presentation stage again starts the demo on the warning bell exactly when half the total time is the warning time, and on the final bell exactly when that half is 0 |
| Demo.FormatTimeMeaning | frontend/src/component/Demo.tsx:59-63 | The text is the minutes, a colon and two seconds digits, and it parses back to the time |
| Demo.FormatTimeBelowZero | frontend/src/component/Demo.tsx:59-62 | At −1 s the display reads "-1:0-1" |
| Scoretable.TotalUnfold | frontend/src/component/Scoretable.tsx:66-69 | A total is the sum of the team's points over the criteria, missing scores counting zero |
| Scoretable.ClampMeaning | frontend/src/component/Scoretable.tsx:178 | A typed score above the maximum is cut to the maximum, one within it is kept, and a non-number counts zero; a negative score is not raised |
| Scoretable.TotalBounds | frontend/src/component/Scoretable.tsx:174-178 | With every score at most its maximum a total is at most four maxima, while a typed −1 with no positive score makes the total negative |
| Scoretable.ClampKeepsCapped | frontend/src/component/Scoretable.tsx:174-178 | Storing a clamped score keeps every score at most its maximum |
| Scoretable.AddTeamMeaning | frontend/src/component/Scoretable.tsx:45-54 | A new row is appended after the others, with id length + 1, an empty name and a zero total |
| Scoretable.RemoveTeamMeaning | frontend/src/component/Scoretable.tsx:56-58 | Removing drops the row at that index and keeps the others in order; an index outside the table changes nothing |
| Scoretable.DuplicateIdAfterRemove | frontend/src/component/Scoretable.tsx:45-58 | Removing the first row and then adding one gives the new row the same id as the last old row |
| Scoretable.UpdateTeam | frontend/src/component/Scoretable.tsx:60-64 | A rename changes only that row's name; a score change sets only that criterion of that row; every other row and the id stay |
| Scoretable.TotalAfterSetScore | frontend/src/component/Scoretable.tsx:60-69 | After a score is written, the total changes by the new points minus the old |
| Scoretable.RankingsMeaning | frontend/src/component/Scoretable.tsx:85-92 | The rankings are a permutation of the teams with their totals, in non-increasing order of total |
| Scoretable.RankingsKeepRankedOrder | frontend/src/component/Scoretable.tsx:91 | A table already in non-increasing order of total keeps its order in the rankings |
| Registration.TrimEmptyIffBlank | frontend/src/component/Final.tsx:136 | Trimming gives the empty text exactly when the text is all whitespace, and otherwise leaves no whitespace at either end |
| Registration.ValidateEmailIff | frontend/src/component/Final.tsx:122-125 | The pattern test accepts exactly the texts without whitespace that have a single '@', not first, and a '.' after the character following it, with a character after the '.' |
| Registration.PatternGivesShape | frontend/src/component/Adduser.tsx:14-17 | An address the pattern accepts has that shape |
| Registration.ShapeGivesPattern | frontend/src/component/Adduser.tsx:15-16 | Any address of that shape is accepted by the pattern |
| Registration.PaddedEmailRefused | frontend/src/component/Final.tsx:141-146 | An address with whitespace at either end fails the pattern |
| Registration.BlankEmailFailsPattern | frontend/src/component/Adduser.tsx:33-39 | A blank email also fails the pattern, so the 'required' message is the one shown |
| Registration.ValidateForm | frontend/src/component/Final.tsx:127-155 | The form is valid exactly when the fields pass, and the errors returned are the form's messages: each field's message exactly when that field fails, the email "required" message taking precedence over the pattern message, no general error |
| Registration.FormErrorsIffInvalid | frontend/src/component/Adduser.tsx:19-47 | A form shows no message exactly when it is valid, and its general error is always empty |
| Registration.FailureMessage | frontend/src/component/Final.tsx:206-215 | The failure text is never empty; it is the server's message when there is one, otherwise the request error's message when there is one |
| Registration.RegisterForm.constructor | frontend/src/component/Final.tsx:165-177 | The form starts empty, untouched and not submitting |
| Registration.RegisterForm.HandleChange | frontend/src/component/Final.tsx:179-184 | A change writes one field, marks it touched and clears its error and the general error; nothing else changes |
| Registration.RegisterForm.HandleSubmit | frontend/src/component/Adduser.tsx:78-111 | A form is posted exactly when valid; an invalid one keeps its data and shows exactly its validation messages (name, email by precedence, semester); on success the form resets and shows the message, on failure the data is kept and the general error shows the failure text |
| QuickForm.RegistrationForm.constructor | frontend/src/component/Form.tsx:9-10 | The form starts with an empty name and semester |
| QuickForm.RegistrationForm.HandleSubmit | frontend/src/component/Form.tsx:12-19 | A submission with a non-empty name and semester records them and clears both fields; otherwise nothing is recorded and the fields stay |
| QuickForm.WhitespaceNameAccepted | frontend/src/component/Form.tsx:14 | A name of one space is accepted here, while the registration form refuses it |
| UsersSlice.FirstIndex | frontend/store/usersSlice.ts:30 | The index is the first user with the id, or −1 exactly when none has it |
| UsersSlice.FindIndex | frontend/store/usersSlice.ts:30 | The search loop returns exactly that first index |
| UsersSlice.FirstIndexUnique | frontend/store/usersSlice.ts:30 | findIndex's result is determined by its first-match description: any index that matches with no match before it (or −1 when none matches) is the one found |
| UsersSlice.UniqueIdsFoundOnly | frontend/store/usersSlice.ts:29-34 | When no two users share an id, the index found is the only user with that id |
| UsersSlice.UsersState.constructor | frontend/store/usersSlice.ts:15-17 | The store starts with no users |
| UsersSlice.UsersState.AddUsers | frontend/store/usersSlice.ts:23-25 | The fetched list replaces the users |
| UsersSlice.UsersState.RemoveUser | frontend/store/usersSlice.ts:26-28 | Every user with that id is dropped, the rest kept in order |
| UsersSlice.UsersState.UpdateUser | frontend/store/usersSlice.ts:29-34 | The first user with the id is replaced; an unknown id changes nothing |
| UsersSlice.RemoveUserMeaning | frontend/store/usersSlice.ts:26-28 | After removal a user is kept exactly when its id differs, the order is kept, and a list without the id is unchanged |
| UsersSlice.UpdateUserMeaning | frontend/store/usersSlice.ts:29-34 | An update keeps the length, changes no user with another id, and puts the payload at the first matching index |
| ViewUser.HandleSortMeaning | frontend/src/component/ViewUser.tsx:41-49 | Sorting by a field is a permutation of the users ordered by that field's collation |
| ViewUser.ExportToPdf | frontend/src/component/ViewUser.tsx:52-85 | The document is the title and count, then the header row, then four cells per user, in list order |
| ViewUser.HeaderPositions | frontend/src/component/ViewUser.tsx:64-71 | The headers sit at x = 20, 40, 120 and 210, all at y = 40, each column starting where the previous one's width ends |
| ViewUser.RowAt | frontend/src/component/ViewUser.tsx:74-81 | The cells of the i-th user are the i-th group of four draws |
| ViewUser.UserRowColumns | frontend/src/component/ViewUser.tsx:77-80 | A row shows number, name, email and semester in the header columns |
| ViewUser.RowLayout | frontend/src/component/ViewUser.tsx:74-81 | Row i shows the number i + 1, the name, the email and the semester at the header columns, at y = 50 + 10 i |
| ViewUser.RowsDescend | frontend/src/component/ViewUser.tsx:66-76 | Rows come below the header, each below the previous one |
| TeamPanels.WithoutIdMeaning | frontend/src/component/Teammanagement.tsx:55 | Deleting keeps exactly the teams with another id, in order, and changes nothing when no team has the id |
| TeamPanels.ReplacingIdMeaning | frontend/src/component/Teammanagement.tsx:83-87 | Saving puts the edited team at every position whose id matches and keeps the rest in place |
| TeamPanels.CardTitleMeaning | frontend/src/component/Teammanagement.tsx:153 | A card title is never empty: the team's name, or "Team " and its number when the name is empty |
| TeamPanels.TeamPanel.constructor | frontend/src/component/ViewTeam.tsx:23-27 | The panel starts loading, with no teams and no edit |
| TeamPanels.TeamPanel.HandleFetch | frontend/src/component/ViewTeam.tsx:30-41 | A fetched list replaces the teams; a failure keeps them and sets the error text; loading ends either way |
| TeamPanels.TeamPanel.HandleDelete | frontend/src/component/ViewTeam.tsx:44-53 | A successful delete drops the teams with that id locally; a failure changes nothing |
| TeamPanels.TeamPanel.HandleEditCopy | frontend/src/component/Teammanagement.tsx:62-65 | Editing starts on a shallow copy: a new team object sharing the member objects |
| TeamPanels.TeamPanel.HandleEditSame | frontend/src/component/ViewTeam.tsx:56-59 | Editing starts on the listed team object itself |
| TeamPanels.TeamPanel.HandleModalClose | frontend/src/component/Teammanagement.tsx:67-70 | Closing the dialog clears the edit |
| TeamPanels.TeamPanel.HandleNameChange | frontend/src/component/ViewTeam.tsx:178-180 | The name edit makes a new team object with the new name and the same members |
| TeamPanels.TeamPanel.HandleMemberChange | frontend/src/component/Teammanagement.tsx:254-278 | A member edit writes the field on the shared member object, so the listed team sees it too |
| TeamPanels.TeamPanel.HandleSaveEdit | frontend/src/component/ViewTeam.tsx:68-90 | When a team is being edited and the server returns it, it replaces the teams with the edited id and the dialog closes; otherwise nothing changes |
| TeamPanels.CancelKeepsMemberEdit | frontend/src/component/Teammanagement.tsx:254-278 | Cancelling after a member edit leaves the change visible in the listed team |
| TeamPanels.CancelDropsNameEdit | frontend/src/component/ViewTeam.tsx:178-180 | Cancelling after a name edit leaves the listed team's name as it was |
| Http.SaveErrorReply | backend/controller/team.controller.js:22-37 | A failed save answers 409 exactly for the duplicate-key code 11000 and 500 otherwise |
| TeamController.RegisterTeamMeaning | backend/controller/team.controller.js:7-37 | 400 exactly when the team id is missing or the member list is missing or empty; otherwise 200 when saved, 409 for a duplicate key and 500 for any other error |
| TeamController.GetAllTeamsMeaning | backend/controller/team.controller.js:42-63 | 400 exactly when no team exists, 200 exactly when some do, 500 when the query throws |
| TeamController.EditTeamMeaning | backend/controller/team.controller.js:67-89 | 400 exactly when the id, the name or the members are missing; otherwise 404 when no team matches, 200 when updated, 500 when it throws |
| TeamController.DeleteTeamMeaning | backend/controller/team.controller.js:93-124 | 400 exactly when the id is missing; otherwise 404 when no team matches, 200 when deleted, 500 when it throws |
| TeamController.SaveTeamsMeaning | backend/controller/team.controller.js:126-143 | 400 exactly when the team list is missing or empty; otherwise 200 when inserted and 500 when it throws |
| UserController.RegisterUserChecksOnlySemester | backend/controller/user.controller.js:8-13 | The guard answers 400 exactly when the semester is missing; otherwise 200 exactly when saved and 409 exactly for a duplicate key |
| UserController.BlankNamePassesGuard | backend/controller/user.controller.js:8-37 | A request with an empty name passes the guard; the schema's refusal makes the save throw without a duplicate-key code, so it is answered 500 "An unexpected error occurred" where the intended guard answers 400; a missing name and email also reach the database |
| UserController.RegisterUserIntendedMeaning | backend/controller/user.controller.js:8-37 | With all three fields checked, 400 exactly when any is missing and 200 exactly when complete and saved; with name and email present it answers as the original |
| UserController.GetAllUsersMeaning | backend/controller/user.controller.js:40-59 | A listing answers 200 with the users, also when empty, and no reply is sent exactly when the query throws |
| UserController.GetAllUsersIntendedMeaning | backend/controller/user.controller.js:40-59 | With the error answered, every request gets a reply: the original's reply for a listing, 500 when the query throws |
| UserController.EditUserMeaning | backend/controller/user.controller.js:61-98 | 400 exactly when the id or any field is missing; otherwise 404 when no user matches, 200 when updated, 500 when it throws |
| UserController.DeleteUserMeaning | backend/controller/user.controller.js:100-131 | 400 exactly when the id is missing; otherwise 404 when no user matches, 200 when deleted, 500 when it throws |

## Left out

- The animated shuffles (random-comparator sorts and the reveal
  animations) only reorder the display. The formation algorithms accept
  the roster in any order, so FInalTeamForm's animated input is covered.
- The probability distribution of `Math.random` is not modelled. Every
  draw sequence the shuffle accepts is a parameter, and the lemmas show
  that these draws reach every ordering, and, when the elements are
  pairwise distinct, each ordering exactly once.
- Timers, effects, intervals, sound, confetti, scrolling, toasts and
  console output are left out. Only the arithmetic each tick performs is
  modelled.
- The Demo tick order and its progress bar (a floating-point percentage)
  are left out.
- Network calls (fetch and axios) are left out. Their results are
  parameters: a reply or a failure.
- Mongoose calls are left out. Their outcomes are parameters, and schema
  validation is folded into the save outcome.
- The route wiring, database connection and server start-up are left out
  (backend/index.js, backend/db/index.js, backend/routes).
- backend/mail.js is not part of this model.
- The schemas are not part of this model. Their enum `first`/`third`,
  which differs in case from the frontend's `First`/`Third`, is therefore
  not modelled.
- `toLocaleString`, date parsing and the clock are left out. The time
  difference is an integer number of milliseconds passed in.
- The registration form renders its submit button only while
  `now <= deadlineTimestamp` (frontend/src/component/Final.tsx:393). This
  deadline gate on Registration.RegisterForm.HandleSubmit is not
  modelled, so the model lets a submission through at any time.
- jsPDF is modelled as the list of text calls it receives. Font size and
  `save` are left out.
- The XLSX export is left out.
- Display-only components are left out: Header, Admin, AdminPanel,
  AllTeams, Judgecriteria, App, updatePopup and Shuffle.
- userService is left out. It only wraps the same HTTP calls.
- Scores are modelled as exact reals, so floating-point rounding of the
  totals is not modelled.
- Demo.PresentationTimer.StageOver: integer halving models
  `totalTime / 2`. With an odd total, JavaScript would keep half a second,
  which the model drops. The default of 480 s is even.
- Scoretable.UpdateTeam: requires an index of an existing row. The table
  only ever passes one, and JavaScript would grow the array for any other
  index.
- Countdown.TeamDetails.HandleInputChange: requires a member index below
  the list length. The form only renders existing members, and JavaScript
  would grow the array for a larger index.
- ViewUser.HandleSortMeaning: `localeCompare` is modelled as an abstract
  collation key per text, so ties are texts that collate equal. The
  collation rules themselves are not modelled.
- TeamDisplay.PopNameTeams: the `|| ''` fallback after each `pop` is not
  modelled. The loop pops only while both lists hold at least two names,
  so `pop` always returns a name. The fallback applies only to an empty
  name, and then gives the same `""`, so it changes none of the modelled
  values.
- TeamPanels.TeamPanel.HandleSaveEdit: the body of the PUT request is not
  modelled, only its outcome.

## Findings

| source | as written | input that shows it | evidently intended | confidence | as-written member | corrected member |
|---|---|---|---|---|---|---|
| backend/controller/user.controller.js:8-13 | the comma expression `!email,!name,!semester` yields only its last operand, so the guard tests only the semester | name "", email "a@b.co", semester "first": the schema refuses the empty name, so the save throws and the reply is 500 instead of 400 | reject a registration missing any of the three fields with 400 | not executed | UserController.BlankNamePassesGuard | UserController.RegisterUserIntendedMeaning |
| backend/controller/user.controller.js:56-58 | the catch block is empty, so a failing query never answers | `find()` throws: no reply is sent and the request hangs | answer 500 when the query fails | not executed | UserController.GetAllUsersMeaning | UserController.GetAllUsersIntendedMeaning |
