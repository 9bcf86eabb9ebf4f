/** Top-k selection over a similarity vector:
    `cosine_similarities.argsort()[:-6:-1]` picks the positions of the (up
    to) five largest scores, largest first. numpy's default sort is not
    stable, so among equal scores the order is not fixed; the contract
    below leaves it open. */
module Ranking {

  const TOP_K: nat := 5

  function Min(a: nat, b: nat): nat
  {
    if a <= b then a else b
  }

  predicate Distinct(xs: seq<nat>)
  {
    forall i, j :: 0 <= i < j < |xs| ==> xs[i] != xs[j]
  }

  /** `picked` is a valid answer of the slice: `min(k, n)` distinct positions
      of `scores`, in non-increasing score order, none of them scoring below
      a position left out. */
  ghost predicate IsTopK(scores: seq<real>, k: nat, picked: seq<nat>)
  {
    && |picked| == Min(k, |scores|)
    && (forall j :: 0 <= j < |picked| ==> picked[j] < |scores|)
    && Distinct(picked)
    && (forall i, j :: 0 <= i < j < |picked| ==> scores[picked[i]] >= scores[picked[j]])
    && (forall j, u :: 0 <= j < |picked| && 0 <= u < |scores| && u !in picked ==>
          scores[picked[j]] >= scores[u])
  }

  /** A distinct sequence whose elements all occur in `ys` is no longer than
      `ys` (pigeonhole). */
  lemma {:induction false} DistinctIncluded(xs: seq<nat>, ys: seq<nat>)
    requires Distinct(xs)
    requires forall x :: x in xs ==> x in ys
    ensures |xs| <= |ys|
  {
    if xs != [] {
      var x := xs[0];
      assert x in ys;
      var j :| 0 <= j < |ys| && ys[j] == x;
      var rest := ys[..j] + ys[j + 1..];
      forall y | y in xs[1..] ensures y in rest {
        assert y in xs;
        var i :| 0 <= i < |ys| && ys[i] == y;
        assert y != x;
        if i < j {
          assert rest[i] == y;
        } else {
          assert rest[i - 1] == y;
        }
      }
      DistinctIncluded(xs[1..], rest);
    }
  }

  /** A distinct sequence longer than `ys` has an element outside `ys`. */
  lemma SomeOutside(xs: seq<nat>, ys: seq<nat>) returns (x: nat)
    requires Distinct(xs) && |xs| > |ys|
    ensures x in xs && x !in ys
  {
    if forall y :: y in xs ==> y in ys {
      DistinctIncluded(xs, ys);
      assert false;
    }
    x :| x in xs && x !in ys;
  }

  /** Fewer than `n` distinct positions below `n` leave one out. */
  lemma SomePositionLeft(picked: seq<nat>, n: nat) returns (u: nat)
    requires Distinct(picked) && |picked| < n
    ensures u < n && u !in picked
  {
    var all := seq(n, i requires 0 <= i < n => i as nat);
    u := SomeOutside(all, picked);
  }

  /** The position of a largest score among those not yet picked. */
  method BestLeft(scores: seq<real>, picked: seq<nat>) returns (best: nat)
    requires Distinct(picked) && |picked| < |scores|
    ensures best < |scores| && best !in picked
    ensures forall u :: 0 <= u < |scores| && u !in picked ==> scores[u] <= scores[best]
  {
    ghost var some := SomePositionLeft(picked, |scores|);
    var found := false;
    best := 0;
    var u := 0;
    while u < |scores|
      invariant 0 <= u <= |scores|
      invariant found ==> best < u && best !in picked
      invariant found ==> forall v :: 0 <= v < u && v !in picked ==> scores[v] <= scores[best]
      invariant !found ==> forall v :: 0 <= v < u ==> v in picked
    {
      if u !in picked && (!found || scores[u] > scores[best]) {
        best := u;
        found := true;
      }
      u := u + 1;
    }
    assert found;
  }

  /** Selection of the `k` best positions, one at a time. */
  method TopK(scores: seq<real>, k: nat) returns (picked: seq<nat>)
    ensures IsTopK(scores, k, picked)
  {
    picked := [];
    while |picked| < k && |picked| < |scores|
      invariant |picked| <= Min(k, |scores|)
      invariant forall j :: 0 <= j < |picked| ==> picked[j] < |scores|
      invariant Distinct(picked)
      invariant forall i, j :: 0 <= i < j < |picked| ==> scores[picked[i]] >= scores[picked[j]]
      invariant forall j, u :: 0 <= j < |picked| && 0 <= u < |scores| && u !in picked ==>
                  scores[picked[j]] >= scores[u]
      decreases |scores| - |picked|
    {
      var best := BestLeft(scores, picked);
      picked := picked + [best];
    }
  }

  /** Any two valid answers agree on the score at every rank: the top-k
      scores are determined by the vector, only positions with equal
      scores may trade places. */
  lemma TopKScoresDetermined(scores: seq<real>, k: nat, a: seq<nat>, b: seq<nat>)
    requires IsTopK(scores, k, a) && IsTopK(scores, k, b)
    ensures forall i :: 0 <= i < |a| ==> scores[a[i]] == scores[b[i]]
  {
    forall i | 0 <= i < |a| ensures scores[a[i]] == scores[b[i]] {
      RankBound(scores, k, a, b, i);
      RankBound(scores, k, b, a, i);
    }
  }

  /** At each rank one valid answer scores no higher than another: of the
      `i + 1` positions `a[0..i]`, one is not among `b[0..i-1]`, and it
      scores at most `b[i]`. */
  lemma RankBound(scores: seq<real>, k: nat, a: seq<nat>, b: seq<nat>, i: nat)
    requires IsTopK(scores, k, a) && IsTopK(scores, k, b)
    requires i < |a|
    ensures scores[a[i]] <= scores[b[i]]
  {
    var xs := a[..i + 1];
    var ys := b[..i];
    assert Distinct(xs);
    var x := SomeOutside(xs, ys);
    var j :| 0 <= j <= i && a[j] == x;
    assert scores[a[i]] <= scores[x];
    if x in b {
      var p :| 0 <= p < |b| && b[p] == x;
      assert p >= i;
    } else {
      assert scores[x] <= scores[b[|b| - 1]];
    }
  }
}
