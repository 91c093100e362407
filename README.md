# Voting rules, verified

A Dafny model of the five tallying rules in `voting.py`:
- plurality;
- instant-runoff;
- Borda count;
- approval;
- positive-negative.

Each rule reads an ordered candidate list and one score vector per voter (higher means more preferred). It builds a per-candidate tally by looping over the voters, and then elects one candidate.

Candidates are identified by their position in the candidate list. A tally is a `seq<int>` with one entry per candidate, zero entries included. That matches the `defaultdict(int)` of the source read at every candidate. The rule methods keep the source's loops. They return the final tally and the elected position, where the source prints them. Approval also returns its baseline. Instant-runoff also returns every round's counts and the candidates still standing in each round. The per-voter lines of the trace are not returned; "## Left out" says which functions state them.

Modules:
- `Tally` (`tally.dfy`): tallies, and the entry-wise sum `Total` of the voters' contributions. This is what the counting loops build. It also holds lemmas on sums and bounds of totals.
- `Selection` (`selection.dfy`): `FirstMax` and `FirstMin`, which are Python's `max` and `min` with a key. Both keep the first extremal element. `Winner` is the election step of every rule but instant-runoff, which elects with `RoundWinner` among the remaining candidates.
- `Preferences` (`preferences.dfy`): the voter-preference table.
- `Ranking` (`ranking.dfy`): a voter's ranking. `sorted(..., reverse=True)` is stable, so equal scores stay in candidate order. It is modelled by an insertion sort, and proved to be the only such order.
- `Voting` (`voting.dfy`): the five rules. Each rule method is proved against a specification function, and lemmas state the properties of that function.

## Model

| member | source | states |
|---|---|---|
| Selection.FirstMax | voting.py:54-56 | `max(among, key)` returns an element of `among` whose key is maximal, and every element before it has a strictly smaller key |
| Selection.FirstMin | voting.py:111-112 | `min(among, key)` returns an element of `among` whose key is minimal, and every element before it has a strictly larger key |
| Selection.Winner | voting.py:69 | the elected candidate holds the largest tally, and every earlier candidate holds strictly less |
| Selection.FirstMaximalUnique | voting.py:69 | that description of the winner fixes exactly one candidate |
| Ranking.RankedIsStableDescending | voting.py:133-136 | a voter's ranking lists every candidate exactly once, each at least as preferred as the next, and equal scores in candidate order |
| Ranking.SortedUnique | voting.py:133-136 | any two rankings of the same candidates that are both sorted in that way are equal, so the stable descending sort has one result |
| Voting.CountingConserves | voting.py:53-58 | one vote per voter: the counts sum to the number of voters, each lies in [0, voters], and a candidate outside the choosable ones gets 0 |
| Voting.LoneCandidateTakesAll | voting.py:85-91 | a lone remaining candidate receives every vote |
| Voting.CountVotes | voting.py:53-58 | the loop's tally is the total of every voter's vote for their first highest-scored choosable candidate, and it sums to the number of voters |
| Voting.Plurality | voting.py:47-70 | the returned counts are that tally over all candidates and sum to the voters; the elected candidate is the first with the most votes |
| Voting.Eliminate | voting.py:111-114 | removing the round's loser leaves one candidate fewer |
| Voting.LoserHasFewestVotes | voting.py:111-112 | the removed candidate is a remaining one with the fewest votes, and strictly fewer than every remaining candidate before it |
| Voting.EliminateRemovesLoser | voting.py:114 | elimination removes the loser and nothing else, and keeps the remaining candidates in candidate order |
| Voting.MajorityIsUnique | voting.py:97-100 | with non-negative counts summing to the voters, at most one candidate reaches voters // 2 + 1 |
| Voting.MajorityWinner | voting.py:122 | when a round has a majority, `max(remaining, key=votes)` is a remaining candidate that holds it, and no other candidate reaches the threshold |
| Voting.ExtendTrace | voting.py:81-115 | a round counted from the remaining candidates extends the recorded sequence of rounds |
| Voting.RoundKeepsInvariant | voting.py:97-115 | a round with a majority ends the count; a round without one has at least two candidates, so removing its loser leaves one, and the counts are cleared |
| Voting.EndedElects | voting.py:122 | once the count has ended, the final round's winner is the one candidate holding a majority |
| Voting.Runoff | voting.py:73-123 | ends within N rounds; round 1 stands all candidates; every round is a fresh count of the remaining candidates; a round ends the count exactly when some count reaches voters // 2 + 1, otherwise its loser is removed; the elected candidate is still standing in the last round, holds the majority, and no other candidate reaches it |
| Voting.RunoffExtendsPlurality | voting.py:85-91 | instant-runoff's first round is the plurality count; if that round has a majority, the count ends there and elects the plurality winner |
| Voting.AwardsAt | voting.py:142-144 | along a ranking, the candidate at rank i receives N - 1 - i points |
| Voting.AwardsAbsent | voting.py:142-144 | a candidate not yet reached in the ranking has no points |
| Voting.AwardsSum | voting.py:142-144 | the points handed out along the first k ranks total k(2N - 1 - k)/2 |
| Voting.BordaRankPoints | voting.py:142-144 | every candidate sits at some rank i of the voter's ranking and receives N - 1 - i points |
| Voting.BordaBallotOrder | voting.py:133-144 | a candidate ranked above another by a voter gets more of that voter's points |
| Voting.BordaBallotSum | voting.py:142-144 | one voter hands out N(N-1)/2 points in all |
| Voting.BordaBallotPoints | voting.py:133-144 | each voter gives each of 0..N-1 to exactly one candidate; a higher score, or an equal score and an earlier position, earns strictly more; the points sum to N(N-1)/2 |
| Voting.BordaUnanimity | voting.py:130-144 | a candidate every voter scores above another gets more Borda points than it |
| Voting.BordaTotalSum | voting.py:130-144 | the Borda tally totals voters × N(N-1)/2 |
| Voting.AwardPoints | voting.py:142-144 | one voter's pass over their ranking adds exactly that voter's Borda points to the tally |
| Voting.Borda | voting.py:126-155 | the tally is the sum of every voter's Borda points and totals voters × N(N-1)/2; the elected candidate is the first with the most points |
| Voting.FlattenLength | voting.py:162 | the chained score list holds voters × N scores |
| Voting.FlattenLayout | voting.py:162 | the chained score list holds voter v's score for candidate c at position v × N + c, voter after voter |
| Voting.FlattenMember | voting.py:162 | every element of the chained list is some voter's score for some candidate |
| Voting.MeanAttained | voting.py:163 | some score is at least the mean of all scores |
| Voting.SomeScoreReachesBaseline | voting.py:162-179 | some voter scores some candidate at or above the baseline, so at least one approval is cast |
| Voting.ApprovalBounds | voting.py:168-179 | every approval count lies between 0 and the number of voters |
| Voting.ApprovalReachesOne | voting.py:189 | the elected candidate has at least one approval |
| Voting.Approve | voting.py:170-179 | one voter's pass adds one point to exactly the candidates they score at or above the baseline |
| Voting.Approval | voting.py:158-190 | the baseline is the mean of every score; the tally is the sum of every voter's approvals, each count in [0, voters]; the elected candidate is the first with the most approvals and has at least one |
| Voting.PosNegBalanced | voting.py:200-208 | a positive-negative vote adds nothing to the tally's sum |
| Voting.PosNegCancelsIffTied | voting.py:200-208 | a voter's +1 and -1 cancel exactly when all their scores are tied, and then both go to the first candidate |
| Voting.PosNegTotals | voting.py:197-208 | the positive-negative tally sums to 0, and each count lies in [-voters, voters] |
| Voting.CastPosNeg | voting.py:199-208 | one voter adds +1 to their first highest-scored candidate and -1 to their first lowest-scored one |
| Voting.PosNeg | voting.py:193-223 | the tally is the sum of every voter's +1/-1 vote, sums to 0, and each count lies in [-voters, voters]; the elected candidate is the first with the highest net count |
| Voting.PositiveSumCharts | voting.py:24-26 | a tally with a positive sum has a non-zero largest height, so its chart can be drawn |
| Voting.PluralityChart | voting.py:65-67 | the plurality chart can be drawn exactly when there is at least one voter |
| Voting.LoneBordaCandidateScoresZero | voting.py:142-144 | with a single candidate, every Borda count is 0 |
| Voting.BordaChart | voting.py:150-152 | the Borda chart can be drawn exactly when there is at least one voter and there are at least two candidates |
| Voting.PosNegChart | voting.py:217-220 | the positive-negative chart can be drawn exactly when some net count is not 0 |
| Voting.PosNegOpposedVotersUndrawable | voting.py:217-220 | two voters scoring [5, 1] and [1, 5] net every count to 0, so the chart cannot be drawn |

## Left out

- `make_bar_chart` (voting.py:14-44) is not modelled as drawing. It draws with matplotlib in random colours, which is a foreign library and a side effect. The rule methods drop every call to it.
- Dropping the chart also drops its `ZeroDivisionError`. The chart divides each height by the largest height (voting.py:24-26), so it raises on an all-zero tally, and every rule draws its tally before it elects. On such inputs the rule methods elect candidate 0 where the source raises. `ChartDefined` states when the chart can be drawn. These lemmas say when that fails for the rules that accept such inputs:
  - `PluralityChart`: plurality with no voters (voting.py:66).
  - `BordaChart`: Borda with no voters, or with a single candidate, who always gets 0 points (voting.py:151).
  - `PosNegChart`: positive-negative whenever every net count is 0, which happens on ordinary input (`PosNegOpposedVotersUndrawable`, voting.py:218).
  - With at least one voter, the instant-runoff and approval charts can always be drawn. Each runoff round's counts sum to the number of voters, and the final round and approval both have a count of at least 1.
- The `print` tracing is not modelled. Some of what it reports is returned:
  - Every rule returns its final tally and the elected candidate.
  - Approval also returns its baseline.
  - Instant-runoff returns every round's counts (`rounds`) and the candidates standing in each round (`remainings`). The source's `round` counter is a position in these lists.
- The per-voter trace lines are not returned by the rule methods. Each one is a function of that voter's ballot:
  - the vote printed by plurality and by each runoff round (voting.py:59, voting.py:90) is `Choice` of the ballot over the choosable candidates;
  - the Borda ranking (voting.py:138-140) is `Ranked` of the ballot;
  - the approved candidates (voting.py:176) are those where `ApprovalBallot` of the ballot is 1;
  - the +1/-1 pair (voting.py:209-211) is `PosNegBallot` of the ballot.
- The removed candidate printed in instant-runoff (voting.py:113) is not returned either. It is `Loser` of each non-final round's remaining candidates and counts, which `RunoffTrace` fixes.
- `main` (voting.py:226-233) is not modelled. It finds input files with `glob` and runs the rules in a fixed order.
- `pref.py` is not part of this model. It opens the CSV file and parses it with `csv.reader` and `float()`. The model takes the parsed table as given: every score vector has one entry per candidate, and scores are exact reals.
- Voter identifiers are dropped. They only label trace output, and the source visits the voters in the table's order, which the list of score vectors keeps.
- The approval baseline is computed over exact reals. Floating-point rounding of the mean is not modelled, and neither is `round(avg_pref, 2)`, which only affects the printed message.
- Candidate names must be distinct. The source looks a candidate's score up by `vp.candidates.index(name)`, which conflates duplicate names. With distinct names, that lookup is the candidate's own position.
- Some inputs on which the source raises are excluded by preconditions:
  - Every rule requires at least one candidate. With none, plurality, Borda and positive-negative raise because `max` of an empty list raises (voting.py:69, voting.py:154, voting.py:200 or voting.py:222). Instant-runoff raises at its first `max` or `min` (voting.py:86 or voting.py:111). Approval's mean divides by zero first (voting.py:163).
  - Instant-runoff requires at least one voter. With none, the first round's counts are all 0 and its chart raises (voting.py:104-105). `Runoff` therefore never elects on that input.
  - Approval requires at least one voter. With none, the mean divides by zero (voting.py:163).
- The other inputs on which the source raises are accepted, and the model elects there: plurality and Borda with no voters, Borda with one candidate, and positive-negative with an all-zero net tally. They are the chart cases listed above.
- Approval's per-voter pass fuses two steps into one loop over the candidates: filtering the approved candidates, and incrementing each one. Both steps visit the candidates in the same order and make the same increments. The intermediate list `approved_candidates` is only printed.

## Findings

| source | as written | input that shows it | evidently intended | confidence | as-written member | corrected member |
|---|---|---|---|---|---|---|
| voting.py:217-220 | `pos_neg` charts its net counts before electing, and the chart divides by the largest count (voting.py:25), which is 0 whenever every net count is 0 | two voters scoring [5, 1] and [1, 5] | a zero net tally is an ordinary outcome: elect the first candidate with the highest net count, here candidate 0 | not executed; follows from the division at voting.py:25 | Voting.PosNegOpposedVotersUndrawable | Voting.PosNeg |
