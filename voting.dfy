/** The five tallying rules of voting.py. Each rule reads the candidate list
    and the ballots, builds a tally by adding every voter's contribution in
    a loop, and elects one candidate. Candidates are identified by their
    position in the candidate list; the elected candidate's name is
    candidates[elected]. Trace printing and chart drawing are not modelled.
    The rules return their final tally and the elected candidate; approval
    also returns its baseline, and instant-runoff every round's counts and
    the candidates standing in it. When a chart could be drawn is stated
    separately, at the end of this module. */
module Voting {
  import opened Tally
  import opened Selection
  import opened Preferences
  import opened Ranking

  // ---------------------------------------------------------------------
  // One vote per voter: plurality, and every round of instant-runoff
  // ---------------------------------------------------------------------

  /** The candidate a ballot votes for when only the candidates in among may
      be chosen: the first of them, in among's order, with the highest score. */
  function Choice(b: Ballot, among: seq<nat>): nat
    requires |among| > 0 && Indexes(among, |b|)
  {
    among[FirstMax(b, among)]
  }

  /** Every voter's single vote, as a tally of its own. */
  function VoteVectors(ballots: seq<Ballot>, among: seq<nat>, n: nat): (vs: seq<seq<int>>)
    requires |among| > 0 && Indexes(among, n) && Aligned(ballots, n)
    ensures |vs| == |ballots| && Uniform(vs, n)
  {
    seq(|ballots|, v requires 0 <= v < |ballots| => Unit(n, Choice(ballots[v], among)))
  }

  /** The vote counts when every voter votes for their choice among among. */
  function Votes(ballots: seq<Ballot>, among: seq<nat>, n: nat): (t: seq<int>)
    requires |among| > 0 && Indexes(among, n) && Aligned(ballots, n)
    ensures |t| == n
  {
    Total(VoteVectors(ballots, among, n), n)
  }

  /** Counting one vote per voter: the counts sum to the number of voters,
      each lies between 0 and that number, and a candidate outside among
      gets nothing. */
  lemma CountingConserves(ballots: seq<Ballot>, among: seq<nat>, n: nat)
    requires |among| > 0 && Indexes(among, n) && Aligned(ballots, n)
    ensures |Votes(ballots, among, n)| == n
    ensures Sum(Votes(ballots, among, n)) == |ballots|
    ensures forall c :: 0 <= c < n ==> 0 <= Votes(ballots, among, n)[c] <= |ballots|
    ensures forall c :: 0 <= c < n && c !in among ==> Votes(ballots, among, n)[c] == 0
  {
    var vs := VoteVectors(ballots, among, n);
    forall v | 0 <= v < |vs|
      ensures Sum(vs[v]) == 1
    {
      SumUnit(n, Choice(ballots[v], among));
    }
    TotalSum(vs, n, 1);
    forall c | 0 <= c < n
      ensures 0 <= Votes(ballots, among, n)[c] <= |ballots|
    {
      TotalBounds(vs, n, c, 0, 1);
    }
    forall c | 0 <= c < n && c !in among
      ensures Votes(ballots, among, n)[c] == 0
    {
      TotalBounds(vs, n, c, 0, 0);
    }
  }

  /** A lone remaining candidate receives every vote. */
  lemma LoneCandidateTakesAll(ballots: seq<Ballot>, x: nat, n: nat)
    requires x < n && Aligned(ballots, n)
    ensures Votes(ballots, [x], n)[x] == |ballots|
  {
    var vs := VoteVectors(ballots, [x], n);
    TotalBounds(vs, n, x, 1, 1);
  }

  /** The counting loop shared by plurality (voting.py:53-58) and each
      instant-runoff round (voting.py:85-91). */
  method CountVotes(ballots: seq<Ballot>, among: seq<nat>, n: nat) returns (votes: seq<int>)
    requires |among| > 0 && Indexes(among, n) && Aligned(ballots, n)
    ensures votes == Votes(ballots, among, n)
    ensures Sum(votes) == |ballots|
  {
    ghost var vs := VoteVectors(ballots, among, n);
    votes := Zeros(n);
    for v := 0 to |ballots|
      invariant votes == Total(vs[..v], n)
    {
      var candidate := Choice(ballots[v], among);
      TotalStep(vs, n, v);
      AddUnit(votes, candidate);
      votes := votes[candidate := votes[candidate] + 1];
    }
    assert vs[..|ballots|] == vs;
    CountingConserves(ballots, among, n);
  }

  /** Plurality voting: every voter votes for their highest-scored candidate
      (the earliest one on a tie), and the candidate with the most votes is
      elected (the earliest one on a tie). */
  method Plurality(vp: VoterPreferences) returns (votes: seq<int>, elected: nat)
    requires vp.WellFormed()
    ensures votes == Votes(vp.ballots, Range(|vp.candidates|), |vp.candidates|)
    ensures Sum(votes) == |vp.ballots|
    ensures FirstMaximal(votes, elected)
  {
    var n := |vp.candidates|;
    votes := CountVotes(vp.ballots, Range(n), n);
    elected := Winner(votes);
  }

  // ---------------------------------------------------------------------
  // Instant-runoff
  // ---------------------------------------------------------------------

  /** The count a candidate needs to end the count: voters // 2 + 1. */
  function Threshold(voters: nat): nat
  {
    voters / 2 + 1
  }

  /** Some candidate holds a majority of the voters' votes. */
  predicate HasMajority(votes: seq<int>, voters: nat)
  {
    exists c :: 0 <= c < |votes| && votes[c] >= Threshold(voters)
  }

  /** The remaining candidates after the round's loser, the first of them
      with the fewest votes, is removed. */
  function Eliminate(remaining: seq<nat>, votes: seq<int>): (r: seq<nat>)
    requires |remaining| > 0 && Indexes(remaining, |votes|)
    ensures |r| == |remaining| - 1
  {
    var k := FirstMin(Reals(votes), remaining);
    remaining[..k] + remaining[k + 1..]
  }

  /** The candidate elimination removes: the first of remaining with the fewest votes. */
  function Loser(remaining: seq<nat>, votes: seq<int>): (x: nat)
    requires |remaining| > 0 && Indexes(remaining, |votes|)
  {
    remaining[FirstMin(Reals(votes), remaining)]
  }

  /** The loser has the fewest votes of all remaining candidates, and strictly
      fewer than every remaining candidate before it in candidate order. */
  lemma LoserHasFewestVotes(remaining: seq<nat>, votes: seq<int>)
    requires |remaining| > 0 && Indexes(remaining, |votes|) && Increasing(remaining)
    ensures Loser(remaining, votes) in remaining
    ensures forall c :: c in remaining ==> votes[Loser(remaining, votes)] <= votes[c]
    ensures forall c :: c in remaining && c < Loser(remaining, votes) ==> votes[Loser(remaining, votes)] < votes[c]
  {
    var k := FirstMin(Reals(votes), remaining);
    var loser := remaining[k];
    forall c | c in remaining
      ensures votes[loser] <= votes[c]
      ensures c < loser ==> votes[loser] < votes[c]
    {
      var i :| 0 <= i < |remaining| && remaining[i] == c;
      assert Reals(votes)[loser] <= Reals(votes)[c];
      assert i < k ==> Reals(votes)[loser] < Reals(votes)[c];
      assert c < loser ==> i < k;
    }
  }

  /** Dropping position k keeps the rest in order and within range. */
  lemma DropKeepsOrder(s: seq<nat>, k: nat, n: nat)
    requires k < |s| && Increasing(s) && Indexes(s, n)
    ensures Increasing(s[..k] + s[k + 1..]) && Indexes(s[..k] + s[k + 1..], n)
  {
    var r := s[..k] + s[k + 1..];
    forall i | 0 <= i < |r|
      ensures r[i] == if i < k then s[i] else s[i + 1]
    {
    }
  }

  /** Dropping position k of a list without repeats removes s[k] and nothing else. */
  lemma DropMembers(s: seq<nat>, k: nat)
    requires k < |s| && Increasing(s)
    ensures forall c :: c in s[..k] + s[k + 1..] <==> c in s && c != s[k]
  {
    var r := s[..k] + s[k + 1..];
    forall c
      ensures c in r <==> c in s && c != s[k]
    {
      if c in r {
        var i :| 0 <= i < |r| && r[i] == c;
        if i < k {
          assert r[i] == s[i];
        } else {
          assert r[i] == s[i + 1];
        }
      }
      if c in s && c != s[k] {
        var i :| 0 <= i < |s| && s[i] == c;
        if i < k {
          assert r[i] == c;
        } else {
          assert r[i - 1] == c;
        }
      }
    }
  }

  /** Elimination removes the loser and nothing else, and keeps the other
      candidates in candidate order. */
  lemma EliminateRemovesLoser(remaining: seq<nat>, votes: seq<int>)
    requires |remaining| > 0 && Indexes(remaining, |votes|) && Increasing(remaining)
    ensures Increasing(Eliminate(remaining, votes)) && Indexes(Eliminate(remaining, votes), |votes|)
    ensures forall c :: c in Eliminate(remaining, votes) <==> c in remaining && c != Loser(remaining, votes)
  {
    var k := FirstMin(Reals(votes), remaining);
    DropKeepsOrder(remaining, k, |votes|);
    DropMembers(remaining, k);
  }

  /** A count in which some candidate reaches the threshold has one such
      candidate only. */
  lemma MajorityIsUnique(votes: seq<int>, voters: nat, a: nat, b: nat)
    requires Sum(votes) == voters && forall c :: 0 <= c < |votes| ==> 0 <= votes[c]
    requires a < |votes| && b < |votes|
    requires votes[a] >= Threshold(voters) && votes[b] >= Threshold(voters)
    ensures a == b
  {
    if a != b {
      SumAtLeastTwo(votes, a, b);
      assert false;
    }
  }

  /** The candidate elected in the final round: max(remaining, key=votes). */
  function RoundWinner(remaining: seq<nat>, votes: seq<int>): nat
    requires |remaining| > 0 && Indexes(remaining, |votes|)
  {
    remaining[FirstMax(Reals(votes), remaining)]
  }

  /** When a round's count has a majority, the round's winner is the one
      remaining candidate holding it. */
  lemma MajorityWinner(ballots: seq<Ballot>, n: nat, remaining: seq<nat>)
    requires Aligned(ballots, n) && |remaining| > 0 && Indexes(remaining, n)
    requires HasMajority(Votes(ballots, remaining, n), |ballots|)
    ensures var votes := Votes(ballots, remaining, n);
      var w := RoundWinner(remaining, votes);
      && w in remaining
      && votes[w] >= Threshold(|ballots|)
      && forall c :: 0 <= c < n && c != w ==> votes[c] < Threshold(|ballots|)
  {
    var votes := Votes(ballots, remaining, n);
    var w := RoundWinner(remaining, votes);
    CountingConserves(ballots, remaining, n);
    var c :| 0 <= c < |votes| && votes[c] >= Threshold(|ballots|);
    assert c in remaining;
    var j :| 0 <= j < |remaining| && remaining[j] == c;
    assert Reals(votes)[c] <= Reals(votes)[w];
    forall d | 0 <= d < n && d != w
      ensures votes[d] < Threshold(|ballots|)
    {
      if votes[d] >= Threshold(|ballots|) {
        MajorityIsUnique(votes, |ballots|, d, w);
      }
    }
  }

  /** Round i was counted with the candidates remaining, i of them already
      removed, and votes holds its count. */
  predicate RoundCounted(ballots: seq<Ballot>, n: nat, i: nat, remaining: seq<nat>, votes: seq<int>)
    requires Aligned(ballots, n)
  {
    && Increasing(remaining) && Indexes(remaining, n)
    && |remaining| == n - i > 0
    && votes == Votes(ballots, remaining, n)
    && Sum(votes) == |ballots|
  }

  /** rounds and remainings record the instant-runoff rounds so far: the
      first round stands all candidates, every round is counted from the
      ballots, and each round but the last ends without a majority and
      removes its loser for the next. */
  predicate RunoffTrace(ballots: seq<Ballot>, n: nat, rounds: seq<seq<int>>, remainings: seq<seq<nat>>)
    requires Aligned(ballots, n)
  {
    && |rounds| == |remainings|
    && (|rounds| > 0 ==> remainings[0] == Range(n))
    && (forall i :: 0 <= i < |rounds| ==> RoundCounted(ballots, n, i, remainings[i], rounds[i]))
    && (forall i :: 0 <= i < |rounds| - 1 ==>
          && !HasMajority(rounds[i], |ballots|)
          && remainings[i + 1] == Eliminate(remainings[i], rounds[i]))
  }

  lemma ExtendTrace(ballots: seq<Ballot>, n: nat, rounds: seq<seq<int>>, remainings: seq<seq<nat>>,
                    remaining: seq<nat>, votes: seq<int>)
    requires Aligned(ballots, n) && RunoffTrace(ballots, n, rounds, remainings)
    requires RoundCounted(ballots, n, |rounds|, remaining, votes)
    requires |rounds| == 0 ==> remaining == Range(n)
    requires |rounds| > 0 ==>
      && !HasMajority(rounds[|rounds| - 1], |ballots|)
      && remaining == Eliminate(remainings[|rounds| - 1], rounds[|rounds| - 1])
    ensures RunoffTrace(ballots, n, rounds + [votes], remainings + [remaining])
  {
    var rs, ms := rounds + [votes], remainings + [remaining];
    forall i | 0 <= i < |rs|
      ensures RoundCounted(ballots, n, i, ms[i], rs[i])
    {
      if i < |rounds| {
        assert rs[i] == rounds[i] && ms[i] == remainings[i];
      }
    }
    forall i | 0 <= i < |rs| - 1
      ensures !HasMajority(rs[i], |ballots|) && ms[i + 1] == Eliminate(ms[i], rs[i])
    {
      assert rs[i] == rounds[i] && ms[i] == remainings[i];
    }
  }

  /** What holds between rounds of the instant-runoff loop: the rounds so
      far form a trace; unless the count has ended, remaining is what the
      last round's elimination left (all candidates before the first round);
      once it has ended, the last round holds a majority. */
  predicate RunoffInvariant(ballots: seq<Ballot>, n: nat, rounds: seq<seq<int>>, remainings: seq<seq<nat>>,
                            remaining: seq<nat>, votes: seq<int>, ended: bool)
    requires Aligned(ballots, n)
  {
    && RunoffTrace(ballots, n, rounds, remainings)
    && Increasing(remaining) && Indexes(remaining, n) && |remaining| >= 1
    && |remaining| + |rounds| == n + (if ended then 1 else 0)
    && (|rounds| == 0 ==> remaining == Range(n) && !ended)
    && (!ended && |rounds| > 0 ==>
          && !HasMajority(rounds[|rounds| - 1], |ballots|)
          && remaining == Eliminate(remainings[|rounds| - 1], rounds[|rounds| - 1]))
    && (ended ==>
          && |rounds| > 0
          && remaining == remainings[|rounds| - 1]
          && votes == rounds[|rounds| - 1]
          && HasMajority(votes, |ballots|))
  }

  /** One round of the loop keeps the invariant: a round with a majority ends
      the count, and a round without one has at least two candidates, so
      eliminating its loser leaves at least one. */
  lemma RoundKeepsInvariant(ballots: seq<Ballot>, n: nat, rounds: seq<seq<int>>, remainings: seq<seq<nat>>,
                            remaining: seq<nat>, votes: seq<int>)
    requires Aligned(ballots, n) && |ballots| > 0
    requires RunoffInvariant(ballots, n, rounds, remainings, remaining, votes, false)
    ensures var counted := Votes(ballots, remaining, n);
      var rs, ms := rounds + [counted], remainings + [remaining];
      && (HasMajority(counted, |ballots|) ==>
            RunoffInvariant(ballots, n, rs, ms, remaining, counted, true))
      && (!HasMajority(counted, |ballots|) ==>
            && |remaining| >= 2
            && RunoffInvariant(ballots, n, rs, ms, Eliminate(remaining, counted), Zeros(n), false))
  {
    var counted := Votes(ballots, remaining, n);
    CountingConserves(ballots, remaining, n);
    ExtendTrace(ballots, n, rounds, remainings, remaining, counted);
    if !HasMajority(counted, |ballots|) {
      if |remaining| == 1 {
        assert remaining == [remaining[0]];
        LoneCandidateTakesAll(ballots, remaining[0], n);
        assert false;
      }
      EliminateRemovesLoser(remaining, counted);
    }
  }

  /** The outcome of instant-runoff: a trace of at most n rounds whose last
      round, counted as votes, gives elected, one of its remaining
      candidates, a majority that no other candidate reaches. */
  predicate RunoffOutcome(ballots: seq<Ballot>, n: nat, rounds: seq<seq<int>>, remainings: seq<seq<nat>>,
                          votes: seq<int>, elected: nat)
    requires Aligned(ballots, n)
  {
    && RunoffTrace(ballots, n, rounds, remainings)
    && 1 <= |rounds| <= n
    && votes == rounds[|rounds| - 1]
    && HasMajority(votes, |ballots|)
    && elected in remainings[|rounds| - 1]
    && elected < |votes|
    && votes[elected] >= Threshold(|ballots|)
    && (forall c :: 0 <= c < |votes| && c != elected ==> votes[c] < Threshold(|ballots|))
  }

  /** Once the count has ended, the final round's winner, max(remaining,
      key=votes), is the one candidate holding a majority. */
  lemma EndedElects(ballots: seq<Ballot>, n: nat, rounds: seq<seq<int>>, remainings: seq<seq<nat>>,
                    remaining: seq<nat>, votes: seq<int>)
    requires Aligned(ballots, n)
    requires RunoffInvariant(ballots, n, rounds, remainings, remaining, votes, true)
    ensures |remaining| > 0 && Indexes(remaining, |votes|)
    ensures RunoffOutcome(ballots, n, rounds, remainings, votes, RoundWinner(remaining, votes))
  {
    assert RoundCounted(ballots, n, |rounds| - 1, remaining, votes);
    MajorityWinner(ballots, n, remaining);
  }

  /** Instant-runoff voting (voting.py:73-123). Every round recounts the
      ballots, each voter voting for their highest-scored remaining
      candidate; a round in which some count reaches voters // 2 + 1 ends
      the count, otherwise the remaining candidate with the fewest votes is
      removed. rounds[i] is the count of round i and remainings[i] the
      candidates still standing in it; votes is the final count. */
  method Runoff(vp: VoterPreferences) returns (rounds: seq<seq<int>>, remainings: seq<seq<nat>>, votes: seq<int>, elected: nat)
    requires vp.WellFormed() && |vp.ballots| > 0
    ensures RunoffOutcome(vp.ballots, |vp.candidates|, rounds, remainings, votes, elected)
  {
    var n := |vp.candidates|;
    var voters := |vp.ballots|;
    votes := Zeros(n);
    var remaining := Range(n);
    var ended := false;
    rounds, remainings := [], [];
    while !ended
      invariant RunoffInvariant(vp.ballots, n, rounds, remainings, remaining, votes, ended)
      decreases |remaining|, !ended
    {
      RoundKeepsInvariant(vp.ballots, n, rounds, remainings, remaining, votes);
      votes := CountVotes(vp.ballots, remaining, n);
      rounds, remainings := rounds + [votes], remainings + [remaining];
      if HasMajority(votes, voters) {
        ended := true;
      } else {
        var candidateRemoved := Loser(remaining, votes);
        EliminateRemovesLoser(remaining, votes);
        remaining := Eliminate(remaining, votes);
        assert candidateRemoved !in remaining;
        votes := Zeros(n);
      }
    }
    EndedElects(vp.ballots, n, rounds, remainings, remaining, votes);
    elected := RoundWinner(remaining, votes);
  }

  /** Instant-runoff's first round is the plurality count; when that count
      already gives a candidate a majority, instant-runoff stops after it
      and elects the plurality winner. */
  lemma {:induction false} RunoffExtendsPlurality(ballots: seq<Ballot>, n: nat, rounds: seq<seq<int>>,
                                                  remainings: seq<seq<nat>>, votes: seq<int>, elected: nat)
    requires n > 0 && Aligned(ballots, n)
    requires RunoffOutcome(ballots, n, rounds, remainings, votes, elected)
    ensures rounds[0] == Votes(ballots, Range(n), n)
    ensures HasMajority(rounds[0], |ballots|) ==> |rounds| == 1 && FirstMaximal(rounds[0], elected)
  {
    assert RoundCounted(ballots, n, 0, remainings[0], rounds[0]);
    assert |rounds| > 1 ==> !HasMajority(rounds[0], |ballots|);
  }

  // ---------------------------------------------------------------------
  // Borda count
  // ---------------------------------------------------------------------

  /** The points one voter hands out along a ranking r of n candidates: the
      candidate at rank i gets n - 1 - i points. */
  function Awards(r: seq<nat>, n: nat): (t: seq<int>)
    requires Indexes(r, n)
    ensures |t| == n
  {
    if r == [] then Zeros(n)
    else
      var t := Awards(r[..|r| - 1], n);
      t[r[|r| - 1] := t[r[|r| - 1]] + (n - |r|)]
  }

  /** A voter's Borda points: the ranking of ballot b, rewarded rank by rank. */
  function BordaBallot(b: Ballot): (t: seq<int>)
    ensures |t| == |b|
  {
    RankedIsStableDescending(b);
    Awards(Ranked(b), |b|)
  }

  function BordaVectors(ballots: seq<Ballot>, n: nat): (vs: seq<seq<int>>)
    requires Aligned(ballots, n)
    ensures |vs| == |ballots| && Uniform(vs, n)
  {
    seq(|ballots|, v requires 0 <= v < |ballots| => BordaBallot(ballots[v]))
  }

  /** The points handed out along the first |r| ranks: twice their sum is |r| * (2n - 1 - |r|). */
  lemma {:induction false} AwardsSum(r: seq<nat>, n: nat)
    requires Indexes(r, n)
    ensures 2 * Sum(Awards(r, n)) == |r| * (2 * n - 1 - |r|)
  {
    if r == [] {
      SumZeros(n);
    } else {
      var k := |r|;
      var init := r[..k - 1];
      AwardsSum(init, n);
      SumUpdate(Awards(init, n), r[k - 1], n - k);
      AwardsStepArithmetic(k, n);
    }
  }

  lemma AwardsStepArithmetic(k: int, n: int)
    ensures (k - 1) * (2 * n - 1 - (k - 1)) + 2 * (n - k) == k * (2 * n - 1 - k)
  {
    assert (k - 1) * (2 * n - k) == k * (2 * n - k) - (2 * n - k);
    assert k * (2 * n - 1 - k) == k * (2 * n - k) - k;
  }

  /** A candidate not yet ranked has no points. */
  lemma {:induction false} AwardsAbsent(r: seq<nat>, n: nat, c: nat)
    requires Indexes(r, n) && c < n && c !in r
    ensures Awards(r, n)[c] == 0
  {
    if r != [] {
      AwardsAbsent(r[..|r| - 1], n, c);
    }
  }

  /** Along a ranking that lists no candidate twice, the candidate at rank i gets n - 1 - i points. */
  lemma {:induction false} AwardsAt(r: seq<nat>, n: nat, i: nat)
    requires Indexes(r, n) && Distinct(r) && i < |r|
    ensures Awards(r, n)[r[i]] == n - 1 - i
  {
    var init := r[..|r| - 1];
    if i == |r| - 1 {
      assert forall j :: 0 <= j < |init| ==> init[j] != r[i];
      AwardsAbsent(init, n, r[i]);
    } else {
      AwardsAt(init, n, i);
      assert r[|r| - 1] != r[i];
    }
  }

  /** In a sorted ranking, a candidate ranked above another sits earlier. */
  lemma SortedPositions(b: Ballot, r: seq<nat>, i: nat, j: nat)
    requires Sorted(b, r) && i < |r| && j < |r| && Before(b, r[i], r[j])
    ensures i < j
  {
  }

  /** Every candidate sits at some rank i of the voter's ranking and gets
      N - 1 - i points. */
  lemma BordaRankPoints(b: Ballot, c: nat)
    requires c < |b|
    ensures |Ranked(b)| == |b|
    ensures exists i :: 0 <= i < |b| && Ranked(b)[i] == c && BordaBallot(b)[c] == |b| - 1 - i
  {
    var r := Ranked(b);
    RankedIsStableDescending(b);
    assert c in r;
    var i :| 0 <= i < |b| && r[i] == c;
    AwardsAt(r, |b|, i);
  }

  /** A candidate ranked above another gets more points. */
  lemma BordaBallotOrder(b: Ballot, x: nat, y: nat)
    requires Before(b, x, y)
    ensures BordaBallot(b)[y] < BordaBallot(b)[x]
  {
    var r := Ranked(b);
    var p := BordaBallot(b);
    var n := |b|;
    RankedIsStableDescending(b);
    BordaRankPoints(b, x);
    BordaRankPoints(b, y);
    var ix :| 0 <= ix < n && r[ix] == x && p[x] == n - 1 - ix;
    var iy :| 0 <= iy < n && r[iy] == y && p[y] == n - 1 - iy;
    SortedPositions(b, r, ix, iy);
  }

  /** A voter hands out N(N-1)/2 points in all. */
  lemma BordaBallotSum(b: Ballot)
    ensures Sum(BordaBallot(b)) == |b| * (|b| - 1) / 2
  {
    var n := |b|;
    RankedIsStableDescending(b);
    AwardsSum(Ranked(b), n);
    assert 2 * Sum(BordaBallot(b)) == n * (n - 1);
  }

  /** One voter's Borda points: each of 0 .. N-1 goes to exactly one
      candidate, a higher score earns strictly more points, an equal score
      earns more for the earlier candidate, and the points sum to N(N-1)/2. */
  lemma BordaBallotPoints(b: Ballot)
    ensures |BordaBallot(b)| == |b|
    ensures forall c :: 0 <= c < |b| ==> 0 <= BordaBallot(b)[c] < |b|
    ensures forall x: nat, y: nat :: Before(b, x, y) ==> BordaBallot(b)[y] < BordaBallot(b)[x]
    ensures forall x, y :: 0 <= x < |b| && 0 <= y < |b| && x != y ==> BordaBallot(b)[x] != BordaBallot(b)[y]
    ensures Sum(BordaBallot(b)) == |b| * (|b| - 1) / 2
  {
    var p := BordaBallot(b);
    forall c | 0 <= c < |b|
      ensures 0 <= p[c] < |b|
    {
      BordaRankPoints(b, c);
    }
    forall x: nat, y: nat | Before(b, x, y)
      ensures p[y] < p[x]
    {
      BordaBallotOrder(b, x, y);
    }
    forall x, y | 0 <= x < |b| && 0 <= y < |b| && x != y
      ensures p[x] != p[y]
    {
      BeforeTotal(b, x, y);
      if Before(b, x, y) {
        BordaBallotOrder(b, x, y);
      } else {
        BordaBallotOrder(b, y, x);
      }
    }
    BordaBallotSum(b);
  }

  /** A candidate that every voter scores above another collects more Borda
      points than it. */
  lemma BordaUnanimity(ballots: seq<Ballot>, n: nat, x: nat, y: nat)
    requires Aligned(ballots, n) && x < n && y < n && |ballots| > 0
    requires forall v :: 0 <= v < |ballots| ==> ballots[v][x] > ballots[v][y]
    ensures Total(BordaVectors(ballots, n), n)[y] < Total(BordaVectors(ballots, n), n)[x]
  {
    var vs := BordaVectors(ballots, n);
    forall v | 0 <= v < |vs|
      ensures vs[v][y] < vs[v][x]
    {
      BordaBallotPoints(ballots[v]);
      assert Before(ballots[v], x, y);
    }
    TotalDominates(vs, n, x, y);
  }

  /** Every Borda tally sums to voters * N(N-1)/2. */
  lemma BordaTotalSum(ballots: seq<Ballot>, n: nat)
    requires Aligned(ballots, n)
    ensures Sum(Total(BordaVectors(ballots, n), n)) == |ballots| * (n * (n - 1) / 2)
  {
    var vs := BordaVectors(ballots, n);
    forall v | 0 <= v < |vs|
      ensures Sum(vs[v]) == n * (n - 1) / 2
    {
      BordaBallotPoints(ballots[v]);
    }
    TotalSum(vs, n, n * (n - 1) / 2);
  }

  /** One voter's pass over their ranking: the candidate at rank i gains
      len(ranking) - 1 - i points. */
  method AwardPoints(points: seq<int>, ranked: seq<nat>) returns (updated: seq<int>)
    requires |ranked| == |points| && Indexes(ranked, |points|)
    ensures updated == Add(points, Awards(ranked, |points|))
  {
    var n := |points|;
    updated := points;
    for i := 0 to |ranked|
      invariant updated == Add(points, Awards(ranked[..i], n))
    {
      assert ranked[..i + 1][..i] == ranked[..i];
      var numPoints := |ranked| - 1 - i;
      updated := updated[ranked[i] := updated[ranked[i]] + numPoints];
    }
    assert ranked[..|ranked|] == ranked;
  }

  /** Borda count (voting.py:126-155): every voter ranks the candidates by
      descending score, the candidate at rank i earning N - 1 - i points;
      the candidate with the most points is elected (the earliest on a tie). */
  method Borda(vp: VoterPreferences) returns (points: seq<int>, elected: nat)
    requires vp.WellFormed()
    ensures points == Total(BordaVectors(vp.ballots, |vp.candidates|), |vp.candidates|)
    ensures Sum(points) == |vp.ballots| * (|vp.candidates| * (|vp.candidates| - 1) / 2)
    ensures FirstMaximal(points, elected)
  {
    var n := |vp.candidates|;
    ghost var vs := BordaVectors(vp.ballots, n);
    points := Zeros(n);
    for v := 0 to |vp.ballots|
      invariant points == Total(vs[..v], n)
    {
      RankedIsStableDescending(vp.ballots[v]);
      var ranked := Ranked(vp.ballots[v]);
      points := AwardPoints(points, ranked);
      TotalStep(vs, n, v);
    }
    assert vs[..|vp.ballots|] == vs;
    BordaTotalSum(vp.ballots, n);
    elected := Winner(points);
  }

  // ---------------------------------------------------------------------
  // Approval
  // ---------------------------------------------------------------------

  /** All scores of all voters in one list, voter after voter. */
  function Flatten(ballots: seq<Ballot>): seq<real>
  {
    if ballots == [] then [] else Flatten(ballots[..|ballots| - 1]) + ballots[|ballots| - 1]
  }

  function SumReals(xs: seq<real>): real
  {
    if xs == [] then 0.0 else SumReals(xs[..|xs| - 1]) + xs[|xs| - 1]
  }

  /** The approval baseline: the mean of every score of every voter. */
  function Baseline(ballots: seq<Ballot>): real
    requires |Flatten(ballots)| > 0
  {
    SumReals(Flatten(ballots)) / (|Flatten(ballots)| as real)
  }

  /** Scores all below m sum to less than |xs| * m. */
  lemma {:induction false} SumBelow(xs: seq<real>, m: real)
    requires |xs| > 0
    requires forall i :: 0 <= i < |xs| ==> xs[i] < m
    ensures SumReals(xs) < (|xs| as real) * m
  {
    var init := xs[..|xs| - 1];
    if init != [] {
      SumBelow(init, m);
    }
  }

  /** Some element of a non-empty list is at least its mean. */
  lemma MeanAttained(xs: seq<real>)
    requires |xs| > 0
    ensures exists i :: 0 <= i < |xs| && xs[i] >= SumReals(xs) / (|xs| as real)
  {
    var m := SumReals(xs) / (|xs| as real);
    if forall i :: 0 <= i < |xs| ==> xs[i] < m {
      SumBelow(xs, m);
      assert false;
    }
  }

  /** Every element of the flattened list is some voter's score for some candidate. */
  lemma {:induction false} FlattenMember(ballots: seq<Ballot>, i: nat)
    requires i < |Flatten(ballots)|
    ensures exists v, c :: 0 <= v < |ballots| && 0 <= c < |ballots[v]| && Flatten(ballots)[i] == ballots[v][c]
  {
    var init := ballots[..|ballots| - 1];
    var last := |ballots| - 1;
    if i < |Flatten(init)| {
      FlattenMember(init, i);
      var v, c :| 0 <= v < |init| && 0 <= c < |init[v]| && Flatten(init)[i] == init[v][c];
      assert ballots[v] == init[v];
    } else {
      var c := i - |Flatten(init)|;
      assert Flatten(ballots)[i] == ballots[last][c];
    }
  }

  /** Some voter scores some candidate at or above the baseline. */
  lemma SomeScoreReachesBaseline(ballots: seq<Ballot>)
    requires |Flatten(ballots)| > 0
    ensures exists v, c :: 0 <= v < |ballots| && 0 <= c < |ballots[v]| && ballots[v][c] >= Baseline(ballots)
  {
    var xs := Flatten(ballots);
    MeanAttained(xs);
    var i :| 0 <= i < |xs| && xs[i] >= Baseline(ballots);
    FlattenMember(ballots, i);
  }

  /** The candidates one voter approves: those scored at or above the baseline. */
  function ApprovalBallot(b: Ballot, baseline: real): (t: seq<int>)
  {
    seq(|b|, c requires 0 <= c < |b| => if b[c] >= baseline then 1 else 0)
  }

  function ApprovalVectors(ballots: seq<Ballot>, baseline: real, n: nat): (vs: seq<seq<int>>)
    requires Aligned(ballots, n)
    ensures |vs| == |ballots| && Uniform(vs, n)
  {
    seq(|ballots|, v requires 0 <= v < |ballots| => ApprovalBallot(ballots[v], baseline))
  }

  /** Each approval tally entry lies between 0 and the number of voters. */
  lemma ApprovalBounds(ballots: seq<Ballot>, baseline: real, n: nat)
    requires Aligned(ballots, n)
    ensures forall c :: 0 <= c < n ==> 0 <= Total(ApprovalVectors(ballots, baseline, n), n)[c] <= |ballots|
  {
    var vs := ApprovalVectors(ballots, baseline, n);
    forall c | 0 <= c < n
      ensures 0 <= Total(vs, n)[c] <= |ballots|
    {
      TotalBounds(vs, n, c, 0, 1);
    }
  }

  /** With the mean as baseline, somebody approves somebody, so the best
      approval count is at least one. */
  lemma ApprovalReachesOne(ballots: seq<Ballot>, n: nat, w: nat)
    requires Aligned(ballots, n) && |Flatten(ballots)| > 0
    requires FirstMaximal(Total(ApprovalVectors(ballots, Baseline(ballots), n), n), w)
    ensures Total(ApprovalVectors(ballots, Baseline(ballots), n), n)[w] >= 1
  {
    var vs := ApprovalVectors(ballots, Baseline(ballots), n);
    SomeScoreReachesBaseline(ballots);
    var v, c :| 0 <= v < |ballots| && 0 <= c < |ballots[v]| && ballots[v][c] >= Baseline(ballots);
    TotalAtLeast(vs, n, c, v);
  }

  /** The flattening holds voters * n scores. */
  lemma {:induction false} FlattenLength(ballots: seq<Ballot>, n: nat)
    requires Aligned(ballots, n)
    ensures |Flatten(ballots)| == |ballots| * n
  {
    if ballots != [] {
      FlattenLength(ballots[..|ballots| - 1], n);
      assert |ballots| * n == (|ballots| - 1) * n + n;
    }
  }

  /** The flattening lists voter v's score for candidate c at v * n + c:
      every score of every voter, voter after voter. */
  lemma {:induction false} FlattenLayout(ballots: seq<Ballot>, n: nat, v: nat, c: nat)
    requires Aligned(ballots, n) && v < |ballots| && c < n
    ensures v * n + c < |Flatten(ballots)|
    ensures Flatten(ballots)[v * n + c] == ballots[v][c]
  {
    var last := |ballots| - 1;
    var init := ballots[..last];
    FlattenLength(init, n);
    assert Flatten(ballots) == Flatten(init) + ballots[last];
    if v < last {
      RowBelow(v, last, n, c);
      FlattenLayout(init, n, v, c);
      assert init[v] == ballots[v];
    }
  }

  /** Position v * n + c lies before row m when v < m and c < n. */
  lemma {:induction false} RowBelow(v: nat, m: nat, n: nat, c: nat)
    requires v < m && c < n
    ensures v * n + c < m * n
  {
    assert m * n == (m - 1) * n + n;
    if v < m - 1 {
      RowBelow(v, m - 1, n, c);
    }
  }

  /** One voter's approvals: every candidate scored at or above the
      baseline gains one point. */
  method Approve(points: seq<int>, preference: Ballot, baseline: real) returns (updated: seq<int>)
    requires |preference| == |points|
    ensures updated == Add(points, ApprovalBallot(preference, baseline))
  {
    var n := |points|;
    updated := points;
    for c := 0 to n
      invariant |updated| == n
      invariant forall d :: 0 <= d < n ==>
        updated[d] == points[d] + (if d < c && preference[d] >= baseline then 1 else 0)
    {
      if preference[c] >= baseline {
        updated := updated[c := updated[c] + 1];
      }
    }
  }

  /** Approval voting (voting.py:158-190): the baseline is the mean of all
      scores; every voter approves each candidate scored at or above it,
      giving that candidate one point; the candidate with the most points is
      elected (the earliest on a tie). */
  method Approval(vp: VoterPreferences) returns (baseline: real, points: seq<int>, elected: nat)
    requires vp.WellFormed() && |vp.ballots| > 0
    ensures |Flatten(vp.ballots)| > 0 && baseline == Baseline(vp.ballots)
    ensures points == Total(ApprovalVectors(vp.ballots, baseline, |vp.candidates|), |vp.candidates|)
    ensures forall c :: 0 <= c < |points| ==> 0 <= points[c] <= |vp.ballots|
    ensures FirstMaximal(points, elected)
    ensures points[elected] >= 1
  {
    var n := |vp.candidates|;
    var aggPref := Flatten(vp.ballots);
    FlattenLength(vp.ballots, n);
    baseline := SumReals(aggPref) / (|aggPref| as real);
    ghost var vs := ApprovalVectors(vp.ballots, baseline, n);
    points := Zeros(n);
    for v := 0 to |vp.ballots|
      invariant points == Total(vs[..v], n)
    {
      points := Approve(points, vp.ballots[v], baseline);
      TotalStep(vs, n, v);
    }
    assert vs[..|vp.ballots|] == vs;
    ApprovalBounds(vp.ballots, baseline, n);
    elected := Winner(points);
    ApprovalReachesOne(vp.ballots, n, elected);
  }

  // ---------------------------------------------------------------------
  // Positive-negative
  // ---------------------------------------------------------------------

  /** One voter's positive-negative vote: +1 to the first highest-scored
      candidate, -1 to the first lowest-scored one. */
  function PosNegBallot(b: Ballot): (t: seq<int>)
    requires |b| > 0
  {
    var pos := FirstMax(b, Range(|b|));
    var neg := FirstMin(b, Range(|b|));
    seq(|b|, c => (if c == pos then 1 else 0) - (if c == neg then 1 else 0))
  }

  function PosNegVectors(ballots: seq<Ballot>, n: nat): (vs: seq<seq<int>>)
    requires n > 0 && Aligned(ballots, n)
    ensures |vs| == |ballots| && Uniform(vs, n)
  {
    seq(|ballots|, v requires 0 <= v < |ballots| => PosNegBallot(ballots[v]))
  }

  /** A positive-negative vote adds nothing to the tally's sum. */
  lemma PosNegBalanced(b: Ballot)
    requires |b| > 0
    ensures Sum(PosNegBallot(b)) == 0
  {
    var n := |b|;
    var pos := FirstMax(b, Range(n));
    var neg := FirstMin(b, Range(n));
    var plus := Zeros(n)[pos := Zeros(n)[pos] + 1];
    assert PosNegBallot(b) == plus[neg := plus[neg] + -1];
    SumZeros(n);
    SumUpdate(Zeros(n), pos, 1);
    SumUpdate(plus, neg, -1);
  }

  /** A voter's positive and negative votes cancel exactly when all their
      scores are tied, and then both go to the first candidate. */
  lemma PosNegCancelsIffTied(b: Ballot)
    requires |b| > 0
    ensures PosNegBallot(b) == Zeros(|b|) <==> forall c :: 0 <= c < |b| ==> b[c] == b[0]
    ensures (forall c :: 0 <= c < |b| ==> b[c] == b[0]) ==>
      FirstMax(b, Range(|b|)) == FirstMin(b, Range(|b|)) == 0
  {
    var n := |b|;
    var pos := FirstMax(b, Range(n));
    var neg := FirstMin(b, Range(n));
    assert Range(n)[pos] == pos && Range(n)[neg] == neg && Range(n)[0] == 0;
    if pos != neg {
      assert PosNegBallot(b)[pos] == 1;
      if pos < neg {
        assert b[Range(n)[pos]] > b[Range(n)[neg]];
      } else {
        assert b[Range(n)[neg]] < b[Range(n)[pos]];
      }
    } else {
      assert PosNegBallot(b) == Zeros(n);
      forall c | 0 <= c < n
        ensures b[c] == b[0]
      {
        assert Range(n)[c] == c;
      }
    }
  }

  /** Each positive-negative tally sums to zero and keeps every entry
      within the number of voters either way. */
  lemma PosNegTotals(ballots: seq<Ballot>, n: nat)
    requires n > 0 && Aligned(ballots, n)
    ensures Sum(Total(PosNegVectors(ballots, n), n)) == 0
    ensures forall c :: 0 <= c < n ==> -|ballots| <= Total(PosNegVectors(ballots, n), n)[c] <= |ballots|
  {
    var vs := PosNegVectors(ballots, n);
    forall v | 0 <= v < |vs|
      ensures Sum(vs[v]) == 0
    {
      PosNegBalanced(ballots[v]);
    }
    TotalSum(vs, n, 0);
    forall c | 0 <= c < n
      ensures -|ballots| <= Total(vs, n)[c] <= |ballots|
    {
      TotalBounds(vs, n, c, -1, 1);
    }
  }

  /** One voter's positive-negative vote: +1 to max(candidates, key=score),
      then -1 to min(candidates, key=score). */
  method CastPosNeg(votes: seq<int>, preference: Ballot) returns (updated: seq<int>)
    requires |preference| > 0 && |votes| == |preference|
    ensures updated == Add(votes, PosNegBallot(preference))
  {
    var n := |preference|;
    var posCandidate := FirstMax(preference, Range(n));
    var negCandidate := FirstMin(preference, Range(n));
    updated := votes[posCandidate := votes[posCandidate] + 1];
    updated := updated[negCandidate := updated[negCandidate] - 1];
  }

  /** Positive-negative voting (voting.py:193-223): every voter gives +1 to
      their first highest-scored candidate and -1 to their first
      lowest-scored one; the candidate with the highest net count is elected
      (the earliest on a tie). */
  method PosNeg(vp: VoterPreferences) returns (votes: seq<int>, elected: nat)
    requires vp.WellFormed()
    ensures votes == Total(PosNegVectors(vp.ballots, |vp.candidates|), |vp.candidates|)
    ensures Sum(votes) == 0
    ensures forall c :: 0 <= c < |votes| ==> -|vp.ballots| <= votes[c] <= |vp.ballots|
    ensures FirstMaximal(votes, elected)
  {
    var n := |vp.candidates|;
    ghost var vs := PosNegVectors(vp.ballots, n);
    votes := Zeros(n);
    for v := 0 to |vp.ballots|
      invariant votes == Total(vs[..v], n)
    {
      votes := CastPosNeg(votes, vp.ballots[v]);
      TotalStep(vs, n, v);
    }
    assert vs[..|vp.ballots|] == vs;
    PosNegTotals(vp.ballots, n);
    elected := Winner(votes);
  }

  // ---------------------------------------------------------------------
  // Charts
  // ---------------------------------------------------------------------

  /** make_bar_chart (voting.py:24-26) scales every bar by the largest
      height and so raises ZeroDivisionError when that height is 0; with no
      bars it computes no scale at all. Every rule draws its tally before it
      elects. */
  predicate ChartDefined(heights: seq<int>)
  {
    heights == [] || heights[Winner(heights)] != 0
  }

  /** A tally with a positive sum can be charted. */
  lemma PositiveSumCharts(t: seq<int>)
    requires |t| > 0 && Sum(t) > 0
    ensures ChartDefined(t)
  {
    SumNonPositive(t);
  }

  /** The plurality chart (voting.py:65-67) can be drawn exactly when
      somebody votes. */
  lemma PluralityChart(ballots: seq<Ballot>, n: nat)
    requires n > 0 && Aligned(ballots, n)
    ensures ChartDefined(Votes(ballots, Range(n), n)) <==> |ballots| > 0
  {
    CountingConserves(ballots, Range(n), n);
    if |ballots| > 0 {
      PositiveSumCharts(Votes(ballots, Range(n), n));
    } else {
      assert VoteVectors(ballots, Range(n), n) == [];
    }
  }

  lemma BordaSumPositive(voters: nat, n: nat)
    requires voters > 0 && n >= 2
    ensures voters * (n * (n - 1) / 2) >= 1
  {
    assert n * (n - 1) >= n;
    assert n * (n - 1) / 2 >= 1;
    assert voters * (n * (n - 1) / 2) >= voters;
  }

  /** With a lone candidate every voter hands out 0 points. */
  lemma LoneBordaCandidateScoresZero(ballots: seq<Ballot>)
    requires Aligned(ballots, 1)
    ensures Total(BordaVectors(ballots, 1), 1) == Zeros(1)
  {
    var vs := BordaVectors(ballots, 1);
    forall v | 0 <= v < |vs|
      ensures 0 <= vs[v][0] <= 0
    {
      BordaBallotPoints(ballots[v]);
    }
    TotalBounds(vs, 1, 0, 0, 0);
  }

  /** The Borda chart (voting.py:150-152) can be drawn exactly when somebody
      votes and there are at least two candidates; a lone candidate always
      gets 0 points. */
  lemma BordaChart(ballots: seq<Ballot>, n: nat)
    requires n > 0 && Aligned(ballots, n)
    ensures ChartDefined(Total(BordaVectors(ballots, n), n)) <==> |ballots| > 0 && n >= 2
  {
    if |ballots| > 0 && n >= 2 {
      BordaTotalSum(ballots, n);
      BordaSumPositive(|ballots|, n);
      PositiveSumCharts(Total(BordaVectors(ballots, n), n));
    } else if |ballots| == 0 {
      assert BordaVectors(ballots, n) == [];
    } else {
      LoneBordaCandidateScoresZero(ballots);
    }
  }

  /** The positive-negative chart (voting.py:217-220) can be drawn exactly
      when some net count is not 0: the counts sum to 0, so the largest is
      0 only when all are. */
  lemma PosNegChart(ballots: seq<Ballot>, n: nat)
    requires n > 0 && Aligned(ballots, n)
    ensures ChartDefined(Total(PosNegVectors(ballots, n), n)) <==> Total(PosNegVectors(ballots, n), n) != Zeros(n)
  {
    var t := Total(PosNegVectors(ballots, n), n);
    PosNegTotals(ballots, n);
    var w := Winner(t);
    SumNonPositive(t);
    if t[w] == 0 {
      assert forall c :: 0 <= c < n ==> t[c] == 0;
      assert t == Zeros(n);
    }
  }

  /** Two voters with opposite scores cancel each other out, so
      positive-negative reaches an all-zero tally on ordinary input and its
      chart raises before the election. */
  lemma PosNegOpposedVotersUndrawable()
    ensures Total(PosNegVectors([[5.0, 1.0], [1.0, 5.0]], 2), 2) == Zeros(2)
    ensures !ChartDefined(Total(PosNegVectors([[5.0, 1.0], [1.0, 5.0]], 2), 2))
  {
    var ballots: seq<Ballot> := [[5.0, 1.0], [1.0, 5.0]];
    assert Range(2) == [0, 1];
    assert FirstMax(ballots[0], Range(2)) == 0 && FirstMin(ballots[0], Range(2)) == 1;
    assert FirstMax(ballots[1], Range(2)) == 1 && FirstMin(ballots[1], Range(2)) == 0;
    var vs := PosNegVectors(ballots, 2);
    assert vs[0] == [1, -1] && vs[1] == [-1, 1];
    assert vs[..1] == [vs[0]] && vs[..1][..0] == [];
    assert Total(vs[..1], 2) == [1, -1];
    assert vs == vs[..2];
    TotalStep(vs, 2, 1);
    PosNegChart(ballots, 2);
  }
}
