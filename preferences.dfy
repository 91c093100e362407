/** The voter-preference table every rule reads: the ordered candidate
    names and one score vector per voter, aligned by position with the
    candidates. Voter identifiers only label trace output, so the table
    keeps the score vectors alone, in the order the voters are visited. */
module Preferences {

  /** One voter's scores, one per candidate; higher means more preferred. */
  type Ballot = seq<real>

  /** Every ballot holds one score per candidate. */
  predicate Aligned(ballots: seq<Ballot>, n: nat)
  {
    forall v :: 0 <= v < |ballots| ==> |ballots[v]| == n
  }

  datatype VoterPreferences = VoterPreferences(candidates: seq<string>, ballots: seq<Ballot>)
  {
    /** The shape every rule relies on: at least one candidate, candidate
        names unique, and every ballot aligned with the candidate list. */
    predicate WellFormed()
    {
      && |candidates| > 0
      && (forall i, j :: 0 <= i < j < |candidates| ==> candidates[i] != candidates[j])
      && Aligned(ballots, |candidates|)
    }
  }
}
