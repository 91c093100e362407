/** Choosing one candidate by a key, the way Python's max and min with a
    key function do: the scan keeps the current best and replaces it only
    by a strictly better element, so among equally good candidates the
    earliest one wins. */
module Selection {

  /** The positions 0, 1, ..., n - 1 of a candidate list, in order. */
  function Range(n: nat): seq<nat>
  {
    seq(n, i => i)
  }

  /** Every element of among is a position below n. */
  predicate Indexes(among: seq<nat>, n: nat)
  {
    forall i :: 0 <= i < |among| ==> among[i] < n
  }

  /** Positions listed in candidate order, each once. */
  predicate Increasing(s: seq<nat>)
  {
    forall i, j :: 0 <= i < j < |s| ==> s[i] < s[j]
  }

  /** No element occurs twice. */
  predicate Distinct(s: seq<nat>)
  {
    forall i, j :: 0 <= i < |s| && 0 <= j < |s| && i != j ==> s[i] != s[j]
  }

  /** An integer tally read as keys for the selections below. */
  function Reals(t: seq<int>): seq<real>
  {
    seq(|t|, i requires 0 <= i < |t| => t[i] as real)
  }

  /** Position, within among, of the first candidate whose key is maximal:
      what max(among, key=...) picks. */
  function FirstMax(keys: seq<real>, among: seq<nat>): (k: nat)
    requires |among| > 0 && Indexes(among, |keys|)
    ensures k < |among|
    ensures forall i :: 0 <= i < |among| ==> keys[among[i]] <= keys[among[k]]
    ensures forall i :: 0 <= i < k ==> keys[among[i]] < keys[among[k]]
  {
    if |among| == 1 then 0
    else
      var k := FirstMax(keys, among[..|among| - 1]);
      if keys[among[|among| - 1]] > keys[among[k]] then |among| - 1 else k
  }

  /** Position, within among, of the first candidate whose key is minimal:
      what min(among, key=...) picks. */
  function FirstMin(keys: seq<real>, among: seq<nat>): (k: nat)
    requires |among| > 0 && Indexes(among, |keys|)
    ensures k < |among|
    ensures forall i :: 0 <= i < |among| ==> keys[among[k]] <= keys[among[i]]
    ensures forall i :: 0 <= i < k ==> keys[among[k]] < keys[among[i]]
  {
    if |among| == 1 then 0
    else
      var k := FirstMin(keys, among[..|among| - 1]);
      if keys[among[|among| - 1]] < keys[among[k]] then |among| - 1 else k
  }

  /** w is the earliest candidate holding the largest entry of tally t. */
  predicate FirstMaximal(t: seq<int>, w: nat)
  {
    && w < |t|
    && (forall c :: 0 <= c < |t| ==> t[c] <= t[w])
    && (forall c :: 0 <= c < w ==> t[c] < t[w])
  }

  /** The elected candidate of a tally: max(candidates, key=lambda c: tally[c]). */
  function Winner(t: seq<int>): (w: nat)
    requires |t| > 0
    ensures FirstMaximal(t, w)
  {
    var k := FirstMax(Reals(t), Range(|t|));
    assert forall c :: 0 <= c < |t| ==> Range(|t|)[c] == c && Reals(t)[c] == t[c] as real;
    k
  }

  /** The winner is determined: no other candidate is the earliest holder of the maximum. */
  lemma FirstMaximalUnique(t: seq<int>, w1: nat, w2: nat)
    requires FirstMaximal(t, w1) && FirstMaximal(t, w2)
    ensures w1 == w2
  {
    assert t[w1] == t[w2];
  }
}
