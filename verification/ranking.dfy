/** `cand_with_fit.sort(key=fitness, reverse=True)` followed by "keep the first m": Python's sort is
    stable, and `reverse=True` keeps equal keys in their original order, so the sorted pool is the
    pool ranked by fitness, highest first, with ties broken by original position. A ranking is
    represented by the sequence of original indices in sorted order. */
module Ranking {
  import opened Results

  /** Candidate `x` is placed before candidate `y`: strictly fitter, or equally fit and earlier. */
  predicate Before(fits: seq<real>, x: nat, y: nat)
    requires x < |fits| && y < |fits|
  {
    fits[x] > fits[y] || (fits[x] == fits[y] && x < y)
  }

  /** Every entry of `r` is an index of `fits`. */
  predicate Indices(fits: seq<real>, r: seq<nat>) {
    forall i :: 0 <= i < |r| ==> r[i] < |fits|
  }

  /** `r` lists indices in placement order. */
  predicate Ranked(fits: seq<real>, r: seq<nat>) {
    Indices(fits, r) && forall i, j :: 0 <= i < j < |r| ==> Before(fits, r[i], r[j])
  }

  /** The indices `0 .. n - 1` in order. */
  function Range(n: nat): (r: seq<nat>)
    ensures |r| == n && forall i :: 0 <= i < n ==> r[i] == i
  {
    seq(n, i => i)
  }

  /** `r` is the order in which a stable descending sort lists the candidates. */
  predicate IsRanking(fits: seq<real>, r: seq<nat>) {
    Ranked(fits, r) && multiset(r) == multiset(Range(|fits|))
  }

  lemma InRange(n: nat, x: nat)
    ensures x in multiset(Range(n)) <==> x < n
  {
    if x < n {
      assert Range(n)[x] == x;
    }
  }

  /** The first entry of a ranked sequence is placed before every other entry. */
  lemma {:induction false} FirstBeforeRest(fits: seq<real>, r: seq<nat>)
    requires Ranked(fits, r) && |r| > 0
    ensures forall y :: y in multiset(r) ==> y == r[0] || (y < |fits| && Before(fits, r[0], y))
  {
    forall y | y in multiset(r)
      ensures y == r[0] || (y < |fits| && Before(fits, r[0], y))
    {
      assert y in r;
      var j :| 0 <= j < |r| && r[j] == y;
      if j > 0 {
        assert Before(fits, r[0], r[j]);
      }
    }
  }

  /** One insertion step: `x` goes in front of the first entry it is placed before. */
  function Insert(fits: seq<real>, x: nat, r: seq<nat>): (r': seq<nat>)
    requires x < |fits| && Ranked(fits, r) && x !in r
    ensures multiset(r') == multiset(r) + multiset{x}
    ensures Ranked(fits, r')
    decreases |r|
  {
    if |r| == 0 then [x]
    else if Before(fits, x, r[0]) then
      PrependRanked(fits, x, r);
      [x] + r
    else
      RankedTail(fits, r);
      var tail := Insert(fits, x, r[1..]);
      ConsRanked(fits, r, x, tail);
      [r[0]] + tail
  }

  /** An entry placed before the head of a ranked sequence may go in front of it. */
  lemma PrependRanked(fits: seq<real>, x: nat, r: seq<nat>)
    requires x < |fits| && Ranked(fits, r) && |r| > 0 && Before(fits, x, r[0])
    ensures Ranked(fits, [x] + r)
  {
    var s := [x] + r;
    forall i, j | 0 <= i < j < |s| ensures Before(fits, s[i], s[j]) {
      assert s[j] == r[j - 1];
      if i == 0 {
        if j > 1 {
          assert Before(fits, r[0], r[j - 1]);
        }
      } else {
        assert s[i] == r[i - 1];
      }
    }
  }

  /** The head of a ranked sequence stays in front when `x`, which it is placed before, is
      inserted into the rest. */
  lemma ConsRanked(fits: seq<real>, r: seq<nat>, x: nat, tail: seq<nat>)
    requires x < |fits| && Ranked(fits, r) && |r| > 0 && x !in r && !Before(fits, x, r[0])
    requires Ranked(fits, tail) && multiset(tail) == multiset(r[1..]) + multiset{x}
    ensures Ranked(fits, [r[0]] + tail)
    ensures multiset([r[0]] + tail) == multiset(r) + multiset{x}
  {
    assert r == [r[0]] + r[1..];
    assert x != r[0];
    assert Before(fits, r[0], x);
    var s := [r[0]] + tail;
    forall j | 0 < j < |s| ensures Before(fits, r[0], s[j]) {
      var y := tail[j - 1];
      assert s[j] == y;
      assert y in multiset(tail);
      if y != x {
        assert y in multiset(r[1..]);
        var k :| 0 <= k < |r[1..]| && r[1..][k] == y;
        assert Before(fits, r[0], r[k + 1]);
      }
    }
    forall i, j | 0 <= i < j < |s| ensures Before(fits, s[i], s[j]) {
      if i > 0 {
        assert s[i] == tail[i - 1] && s[j] == tail[j - 1];
      }
    }
  }

  lemma RangeSnoc(n: nat)
    requires n > 0
    ensures multiset(Range(n)) == multiset(Range(n - 1)) + multiset{(n - 1) as nat}
  {
    assert Range(n) == Range(n - 1) + [n - 1];
  }

  /** The ranking of the first `n` candidates, inserting them one at a time. */
  function RankPrefix(fits: seq<real>, n: nat): (r: seq<nat>)
    requires n <= |fits|
    ensures Ranked(fits, r) && multiset(r) == multiset(Range(n))
  {
    if n == 0 then []
    else
      var r := RankPrefix(fits, n - 1);
      InRange(n - 1, n - 1);
      assert (n - 1) !in multiset(r);
      RangeSnoc(n);
      Insert(fits, n - 1, r)
  }

  /** The stable descending sort of the pool, as the order of original indices. */
  function Rank(fits: seq<real>): (r: seq<nat>)
    ensures IsRanking(fits, r)
  {
    RankPrefix(fits, |fits|)
  }

  lemma RankedTail(fits: seq<real>, r: seq<nat>)
    requires Ranked(fits, r) && |r| > 0
    ensures Ranked(fits, r[1..])
    ensures multiset(r[1..]) == multiset(r) - multiset{r[0]}
  {
    assert r == [r[0]] + r[1..];
    assert forall i :: 0 <= i < |r[1..]| ==> r[1..][i] == r[i + 1];
  }

  /** There is only one ranking: any two sequences listing the same indices in placement order
      are equal, so `Rank` is exactly what a stable descending sort produces. */
  lemma {:induction false} RankingUnique(fits: seq<real>, r1: seq<nat>, r2: seq<nat>)
    requires Ranked(fits, r1) && Ranked(fits, r2) && multiset(r1) == multiset(r2)
    ensures r1 == r2
    decreases |r1|
  {
    assert |r1| == |multiset(r1)| == |multiset(r2)| == |r2|;
    if |r1| > 0 {
      SameHead(fits, r1, r2);
      RankedTail(fits, r1);
      RankedTail(fits, r2);
      var t1, t2 := r1[1..], r2[1..];
      assert multiset(t1) == multiset(t2);
      RankingUnique(fits, t1, t2);
      assert r1 == [r1[0]] + t1;
      assert r2 == [r2[0]] + t2;
    }
  }

  /** Two rankings of the same candidates start with the same one. */
  lemma SameHead(fits: seq<real>, r1: seq<nat>, r2: seq<nat>)
    requires Ranked(fits, r1) && Ranked(fits, r2) && multiset(r1) == multiset(r2) && |r1| > 0 && |r2| > 0
    ensures r1[0] == r2[0]
  {
    var a, b := r1[0], r2[0];
    assert a in r1 && b in r2;
    assert b in multiset(r1) && a in multiset(r2);
    FirstBeforeRest(fits, r1);
    FirstBeforeRest(fits, r2);
  }

  /** What a ranking means for the sorted pool: every candidate appears exactly once, fitness
      never increases along it, and equally fit candidates keep their original order. */
  lemma RankingIsStableSort(fits: seq<real>, r: seq<nat>)
    requires IsRanking(fits, r)
    ensures |r| == |fits|
    ensures forall k :: 0 <= k < |fits| ==> k in r
    ensures forall i, j :: 0 <= i < j < |r| ==> r[i] != r[j]
    ensures forall i, j :: 0 <= i < j < |r| ==> fits[r[i]] >= fits[r[j]]
    ensures forall i, j :: 0 <= i < j < |r| && fits[r[i]] == fits[r[j]] ==> r[i] < r[j]
  {
    assert |r| == |multiset(r)| == |multiset(Range(|fits|))| == |fits|;
    forall k | 0 <= k < |fits| ensures k in r {
      InRange(|fits|, k);
      assert k in multiset(r);
    }
  }

  /** The head of the sorted pool is a fittest candidate, and the earliest of them. */
  lemma {:induction false} HeadIsFittest(fits: seq<real>, r: seq<nat>)
    requires IsRanking(fits, r) && |fits| > 0
    ensures |r| > 0 && r[0] < |fits|
    ensures forall k :: 0 <= k < |fits| ==> fits[k] <= fits[r[0]]
    ensures forall k :: 0 <= k < |fits| && fits[k] == fits[r[0]] ==> r[0] <= k
  {
    RankingIsStableSort(fits, r);
    FirstBeforeRest(fits, r);
    forall k | 0 <= k < |fits| ensures fits[k] <= fits[r[0]] && (fits[k] == fits[r[0]] ==> r[0] <= k) {
      assert k in multiset(r) by {
        assert k in r;
      }
    }
  }

  function Min(a: int, b: int): int {
    if a <= b then a else b
  }

  /** `[cand_with_fit[j] for j in range(min(m, len(cand_with_fit)))]` on the sorted pool: the
      indices of the first `m` candidates in placement order, none when `m` is negative. */
  function Top(fits: seq<real>, m: int): (r: seq<nat>)
    ensures |r| == Clamp(Min(m, |fits|))
    ensures Ranked(fits, r)
    ensures forall i :: 0 <= i < |r| ==> r[i] == Rank(fits)[i]
  {
    var order := Rank(fits);
    RankingIsStableSort(fits, order);
    order[..Clamp(Min(m, |fits|))]
  }

  /** An index that occurs in `r` but not among its first `n` entries occurs after them. */
  lemma OccursAfter(r: seq<nat>, n: nat, k: nat) returns (j: nat)
    requires n <= |r| && k in r && k !in r[..n]
    ensures n <= j < |r| && r[j] == k
  {
    var i :| 0 <= i < |r| && r[i] == k;
    PrefixMembers(r, n);
    j := i;
  }

  lemma PrefixMembers(r: seq<nat>, n: nat)
    requires n <= |r|
    ensures forall i :: 0 <= i < n ==> r[i] in r[..n]
  {
    forall i | 0 <= i < n ensures r[i] in r[..n] {
      assert r[..n][i] == r[i];
    }
  }

  /** Truncation selection keeps the best: every kept candidate is placed before every candidate
      that is left out, so none left out is fitter than any kept. */
  lemma TopKeepsTheBest(fits: seq<real>, m: int)
    ensures forall i, k :: 0 <= i < |Top(fits, m)| && 0 <= k < |fits| && k !in Top(fits, m) ==>
              Before(fits, Top(fits, m)[i], k) && fits[k] <= fits[Top(fits, m)[i]]
  {
    var order := Rank(fits);
    var t := Top(fits, m);
    RankingIsStableSort(fits, order);
    assert t == order[..|t|];
    forall i, k | 0 <= i < |t| && 0 <= k < |fits| && k !in t
      ensures Before(fits, t[i], k)
    {
      var j := OccursAfter(order, |t|, k);
      assert Before(fits, order[i], order[j]);
    }
  }
}
