/** A voter's ranking of the candidates, as sorted(candidates, key=score,
    reverse=True) produces it: by descending score, and, because that sort
    is stable, candidates with equal scores in candidate order. */
module Ranking {
  import opened Selection

  /** x is ranked above y on ballot b: a higher score, or an equal score and
      an earlier position in the candidate list. */
  predicate Before(b: seq<real>, x: nat, y: nat)
  {
    x < |b| && y < |b| && (b[x] > b[y] || (b[x] == b[y] && x < y))
  }

  /** r lists candidates from most to least preferred on ballot b. */
  predicate Sorted(b: seq<real>, r: seq<nat>)
  {
    forall i, j :: 0 <= i < j < |r| ==> Before(b, r[i], r[j])
  }

  /** Places x after every candidate of s ranked above it. */
  function Insert(b: seq<real>, x: nat, s: seq<nat>): (r: seq<nat>)
    ensures multiset(r) == multiset(s) + multiset{x}
  {
    if s == [] then [x]
    else if Before(b, s[0], x) then
      assert s == [s[0]] + s[1..];
      [s[0]] + Insert(b, x, s[1..])
    else [x] + s
  }

  /** The candidates cs rearranged from most to least preferred on b. */
  function SortDescending(b: seq<real>, cs: seq<nat>): (r: seq<nat>)
    ensures multiset(r) == multiset(cs)
  {
    if cs == [] then []
    else
      assert cs == [cs[0]] + cs[1..];
      Insert(b, cs[0], SortDescending(b, cs[1..]))
  }

  /** The ranking of every candidate on ballot b. */
  function Ranked(b: seq<real>): seq<nat>
  {
    SortDescending(b, Range(|b|))
  }

  lemma BeforeTransitive(b: seq<real>, x: nat, y: nat, z: nat)
    requires Before(b, x, y) && Before(b, y, z)
    ensures Before(b, x, z)
  {
  }

  lemma BeforeTotal(b: seq<real>, x: nat, y: nat)
    requires x < |b| && y < |b| && x != y
    ensures Before(b, x, y) || Before(b, y, x)
  {
  }

  lemma {:induction false} InsertSorted(b: seq<real>, x: nat, s: seq<nat>)
    requires Sorted(b, s) && Indexes(s, |b|) && x < |b| && x !in s
    ensures Sorted(b, Insert(b, x, s))
  {
    if s == [] {
      return;
    }
    var result := Insert(b, x, s);
    if Before(b, s[0], x) {
      var r := Insert(b, x, s[1..]);
      assert Sorted(b, s[1..]) by {
        forall i, j | 0 <= i < j < |s| - 1
          ensures Before(b, s[1..][i], s[1..][j])
        {
          assert Before(b, s[i + 1], s[j + 1]);
        }
      }
      InsertSorted(b, x, s[1..]);
      assert result == [s[0]] + r;
      forall j | 0 <= j < |r|
        ensures Before(b, s[0], r[j])
      {
        assert r[j] in multiset(r);
        if r[j] != x {
          assert r[j] in multiset(s[1..]);
          var k :| 0 <= k < |s[1..]| && s[1..][k] == r[j];
          assert Before(b, s[0], s[k + 1]);
        }
      }
      forall i, j | 0 <= i < j < |result|
        ensures Before(b, result[i], result[j])
      {
        if i == 0 {
          assert result[j] == r[j - 1];
        } else {
          assert result[i] == r[i - 1] && result[j] == r[j - 1];
        }
      }
    } else {
      assert s[0] != x;
      BeforeTotal(b, x, s[0]);
      assert result == [x] + s;
      forall i, j | 0 <= i < j < |result|
        ensures Before(b, result[i], result[j])
      {
        if i == 0 {
          if j > 1 {
            BeforeTransitive(b, x, s[0], s[j - 1]);
          }
        } else {
          assert result[i] == s[i - 1] && result[j] == s[j - 1];
        }
      }
    }
  }

  lemma {:induction false} SortSorted(b: seq<real>, cs: seq<nat>)
    requires Increasing(cs) && Indexes(cs, |b|)
    ensures Sorted(b, SortDescending(b, cs))
  {
    if cs != [] {
      SortSorted(b, cs[1..]);
      var r := SortDescending(b, cs[1..]);
      assert cs[0] !in cs[1..] by {
        forall k | 0 <= k < |cs| - 1
          ensures cs[1..][k] != cs[0]
        {
          assert cs[0] < cs[k + 1];
        }
      }
      assert cs[0] !in multiset(r);
      forall j | 0 <= j < |r|
        ensures r[j] < |b|
      {
        assert r[j] in multiset(cs[1..]);
      }
      InsertSorted(b, cs[0], r);
    }
  }

  lemma SortedTail(b: seq<real>, r: seq<nat>)
    requires Sorted(b, r) && r != []
    ensures Sorted(b, r[1..])
  {
    forall i, j | 0 <= i < j < |r| - 1
      ensures Before(b, r[1..][i], r[1..][j])
    {
      assert Before(b, r[i + 1], r[j + 1]);
    }
  }

  /** A ranking lists each candidate once. */
  lemma SortedDistinct(b: seq<real>, r: seq<nat>)
    requires Sorted(b, r)
    ensures Distinct(r)
  {
    forall i, j | 0 <= i < |r| && 0 <= j < |r| && i != j
      ensures r[i] != r[j]
    {
      if i < j {
        assert Before(b, r[i], r[j]);
      } else {
        assert Before(b, r[j], r[i]);
      }
    }
  }

  /** The ranking of a ballot lists every candidate exactly once, from most
      to least preferred, equal scores in candidate order. */
  lemma RankedIsStableDescending(b: seq<real>)
    ensures |Ranked(b)| == |b|
    ensures Sorted(b, Ranked(b))
    ensures Distinct(Ranked(b))
    ensures Indexes(Ranked(b), |b|)
    ensures forall c: nat :: c in Ranked(b) <==> c < |b|
  {
    var r := Ranked(b);
    SortSorted(b, Range(|b|));
    SortedDistinct(b, r);
    assert |r| == |multiset(r)| == |multiset(Range(|b|))| == |b|;
    forall c: nat
      ensures c in r <==> c < |b|
    {
      if c < |b| {
        assert Range(|b|)[c] == c;
        assert c in multiset(Range(|b|));
      }
      if c in r {
        assert c in multiset(Range(|b|));
      }
    }
  }

  /** Only one arrangement of a set of candidates is sorted, so any stable
      descending sort of the candidates by score yields Ranked. */
  lemma {:induction false} SortedUnique(b: seq<real>, r1: seq<nat>, r2: seq<nat>)
    requires Sorted(b, r1) && Sorted(b, r2) && multiset(r1) == multiset(r2)
    ensures r1 == r2
  {
    assert |r1| == |multiset(r1)| == |multiset(r2)| == |r2|;
    if r1 != [] {
      var x, y := r1[0], r2[0];
      assert x in multiset(r2);
      var j :| 0 <= j < |r2| && r2[j] == x;
      assert y in multiset(r1);
      var i :| 0 <= i < |r1| && r1[i] == y;
      assert j == 0 || Before(b, y, x);
      assert i == 0 || Before(b, x, y);
      assert x == y;
      assert r1 == [x] + r1[1..] && r2 == [x] + r2[1..];
      assert multiset(r1) == multiset{x} + multiset(r1[1..]);
      assert multiset(r2) == multiset{x} + multiset(r2[1..]);
      assert multiset(r1[1..]) == multiset(r1) - multiset{x};
      assert multiset(r2[1..]) == multiset(r2) - multiset{x};
      SortedTail(b, r1);
      SortedTail(b, r2);
      SortedUnique(b, r1[1..], r2[1..]);
    }
  }
}
