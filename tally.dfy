/** Tallies: one integer per candidate, aligned by position with the
    candidate list, with zero entries explicit. A rule's tally is the
    entry-wise sum of what each voter contributes. */
module Tally {

  /** Sum of all entries of a tally. */
  function Sum(t: seq<int>): int
  {
    if t == [] then 0 else t[0] + Sum(t[1..])
  }

  /** The empty tally over n candidates. */
  function Zeros(n: nat): seq<int>
  {
    seq(n, _ => 0)
  }

  /** A single vote for candidate c among n candidates. */
  function Unit(n: nat, c: nat): seq<int>
  {
    seq(n, i => if i == c then 1 else 0)
  }

  /** Entry-wise sum of two tallies. */
  function Add(t: seq<int>, u: seq<int>): seq<int>
    requires |t| == |u|
  {
    seq(|t|, i requires 0 <= i < |t| => t[i] + u[i])
  }

  /** Every contribution has one entry per candidate. */
  predicate Uniform(vs: seq<seq<int>>, n: nat)
  {
    forall i :: 0 <= i < |vs| ==> |vs[i]| == n
  }

  /** What the tally holds once every contribution in vs, in order, has been added. */
  function Total(vs: seq<seq<int>>, n: nat): (t: seq<int>)
    requires Uniform(vs, n)
    ensures |t| == n
  {
    if vs == [] then Zeros(n) else Add(Total(vs[..|vs| - 1], n), vs[|vs| - 1])
  }

  /** Adding the next contribution extends the total by one step. */
  lemma TotalStep(vs: seq<seq<int>>, n: nat, k: nat)
    requires Uniform(vs, n) && k < |vs|
    ensures Total(vs[..k + 1], n) == Add(Total(vs[..k], n), vs[k])
  {
    assert vs[..k + 1][..k] == vs[..k];
  }

  lemma AddUnit(t: seq<int>, c: nat)
    requires c < |t|
    ensures Add(t, Unit(|t|, c)) == t[c := t[c] + 1]
  {
  }

  lemma {:induction false} SumUpdate(t: seq<int>, k: nat, d: int)
    requires k < |t|
    ensures Sum(t[k := t[k] + d]) == Sum(t) + d
  {
    if k == 0 {
      assert t[k := t[k] + d][1..] == t[1..];
    } else {
      SumUpdate(t[1..], k - 1, d);
      assert t[k := t[k] + d][1..] == t[1..][k - 1 := t[k] + d];
    }
  }

  lemma {:induction false} SumZeros(n: nat)
    ensures Sum(Zeros(n)) == 0
  {
    if n > 0 {
      assert Zeros(n)[1..] == Zeros(n - 1);
      SumZeros(n - 1);
    }
  }

  /** A single vote adds exactly one to the sum. */
  lemma SumUnit(n: nat, c: nat)
    requires c < n
    ensures Sum(Unit(n, c)) == 1
  {
    assert Unit(n, c) == Zeros(n)[c := Zeros(n)[c] + 1];
    SumZeros(n);
    SumUpdate(Zeros(n), c, 1);
  }

  lemma {:induction false} SumAdd(t: seq<int>, u: seq<int>)
    requires |t| == |u|
    ensures Sum(Add(t, u)) == Sum(t) + Sum(u)
  {
    if t != [] {
      assert Add(t, u)[1..] == Add(t[1..], u[1..]);
      SumAdd(t[1..], u[1..]);
    }
  }

  /** Two distinct entries of a tally with no negative entry never exceed its sum. */
  lemma {:induction false} SumAtLeastTwo(t: seq<int>, a: nat, b: nat)
    requires a < |t| && b < |t| && a != b
    requires forall i :: 0 <= i < |t| ==> 0 <= t[i]
    ensures t[a] + t[b] <= Sum(t)
  {
    if a == 0 {
      SumAtLeastOne(t[1..], b - 1);
    } else if b == 0 {
      SumAtLeastOne(t[1..], a - 1);
    } else {
      SumAtLeastTwo(t[1..], a - 1, b - 1);
    }
  }

  lemma {:induction false} SumAtLeastOne(t: seq<int>, a: nat)
    requires a < |t|
    requires forall i :: 0 <= i < |t| ==> 0 <= t[i]
    ensures t[a] <= Sum(t)
  {
    if a == 0 {
      SumNonNegative(t[1..]);
    } else {
      SumAtLeastOne(t[1..], a - 1);
    }
  }

  lemma {:induction false} SumNonNegative(t: seq<int>)
    requires forall i :: 0 <= i < |t| ==> 0 <= t[i]
    ensures 0 <= Sum(t)
  {
    if t != [] {
      SumNonNegative(t[1..]);
    }
  }

  /** A tally with no positive entry sums to at most each of its entries. */
  lemma {:induction false} SumNonPositive(t: seq<int>)
    ensures (forall i :: 0 <= i < |t| ==> t[i] <= 0) ==> forall k :: 0 <= k < |t| ==> Sum(t) <= t[k]
  {
    if t != [] && forall i :: 0 <= i < |t| ==> t[i] <= 0 {
      SumNonPositive(t[1..]);
      forall k | 0 <= k < |t|
        ensures Sum(t) <= t[k]
      {
        if k == 0 {
          if t[1..] != [] {
            assert Sum(t[1..]) <= t[1..][0];
          }
        } else {
          assert Sum(t[1..]) <= t[1..][k - 1];
        }
      }
    }
  }

  /** When every voter contributes the same amount s, the tally sums to voters * s. */
  lemma {:induction false} TotalSum(vs: seq<seq<int>>, n: nat, s: int)
    requires Uniform(vs, n)
    requires forall i :: 0 <= i < |vs| ==> Sum(vs[i]) == s
    ensures Sum(Total(vs, n)) == |vs| * s
  {
    if vs == [] {
      SumZeros(n);
    } else {
      var init := vs[..|vs| - 1];
      TotalSum(init, n, s);
      SumAdd(Total(init, n), vs[|vs| - 1]);
      assert |vs| * s == |init| * s + s;
    }
  }

  /** Per-voter bounds on one candidate's entry carry over to the tally, scaled by the number of voters. */
  lemma {:induction false} TotalBounds(vs: seq<seq<int>>, n: nat, c: nat, lo: int, hi: int)
    requires Uniform(vs, n) && c < n
    requires forall i :: 0 <= i < |vs| ==> lo <= vs[i][c] <= hi
    ensures |vs| * lo <= Total(vs, n)[c] <= |vs| * hi
  {
    if vs != [] {
      var init := vs[..|vs| - 1];
      TotalBounds(init, n, c, lo, hi);
      assert |vs| * lo == |init| * lo + lo;
      assert |vs| * hi == |init| * hi + hi;
    }
  }

  /** With no negative contribution, a candidate's tally is at least what any one voter gave it. */
  lemma {:induction false} TotalAtLeast(vs: seq<seq<int>>, n: nat, c: nat, k: nat)
    requires Uniform(vs, n) && c < n && k < |vs|
    requires forall i :: 0 <= i < |vs| ==> 0 <= vs[i][c]
    ensures vs[k][c] <= Total(vs, n)[c]
  {
    var init := vs[..|vs| - 1];
    if k < |vs| - 1 {
      TotalAtLeast(init, n, c, k);
    } else if init != [] {
      TotalAtLeast(init, n, c, |init| - 1);
    }
  }

  /** If every voter gives a at least as much as b, so does the tally; strictly more from one voter makes it strict. */
  lemma {:induction false} TotalDominates(vs: seq<seq<int>>, n: nat, a: nat, b: nat)
    requires Uniform(vs, n) && a < n && b < n
    requires forall i :: 0 <= i < |vs| ==> vs[i][b] <= vs[i][a]
    ensures Total(vs, n)[b] <= Total(vs, n)[a]
    ensures (exists i :: 0 <= i < |vs| && vs[i][b] < vs[i][a]) ==> Total(vs, n)[b] < Total(vs, n)[a]
  {
    if vs != [] {
      var init := vs[..|vs| - 1];
      TotalDominates(init, n, a, b);
      if exists i :: 0 <= i < |vs| && vs[i][b] < vs[i][a] {
        var i :| 0 <= i < |vs| && vs[i][b] < vs[i][a];
        if i < |vs| - 1 {
          assert init[i] == vs[i];
        }
      }
    }
  }
}
