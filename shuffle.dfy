/**
 * The random swap pass `for j in [0, n): swap(a[j], a[rand() % n])`, which
 * CDLP runs on its vertex list before every pass. The random numbers are an
 * input (`picks`, one per position). The library shuffles of the workloads
 * (std::random_shuffle, std::shuffle) are modelled by the same pass: every
 * permutation of the input is the result of some choice of picks
 * (EveryPermutationReachable).
 */
module Shuffle {

  /** Exchange positions i and j. */
  function Swap<T>(s: seq<T>, i: nat, j: nat): (r: seq<T>)
    requires i < |s| && j < |s|
    ensures |r| == |s| && r[i] == s[j] && r[j] == s[i]
    ensures forall k :: 0 <= k < |s| && k != i && k != j ==> r[k] == s[k]
  {
    seq(|s|, k requires 0 <= k < |s| => if k == j then s[i] else if k == i then s[j] else s[k])
  }

  lemma SwapPermutes<T>(s: seq<T>, i: nat, j: nat)
    requires i < |s| && j < |s|
    ensures multiset(Swap(s, i, j)) == multiset(s)
  {
    assert Swap(s, i, j) == s[i := s[j]][j := s[i]];
    var t := s[i := s[j]];
    assert multiset(t) == multiset(s) - multiset{s[i]} + multiset{s[j]};
    assert t[j] == (if i == j then s[j] else s[j]);
  }

  /** The first k steps of the pass. */
  function SwapSteps<T>(s: seq<T>, picks: seq<nat>, k: nat): (r: seq<T>)
    requires k <= |s| && k <= |picks|
    ensures |r| == |s|
  {
    if k == 0 then s else Swap(SwapSteps(s, picks, k - 1), k - 1, picks[k - 1] % |s|)
  }

  /** The whole pass: one swap per position, in increasing position order. */
  function SwapPass<T>(s: seq<T>, picks: seq<nat>): (r: seq<T>)
    requires |picks| == |s|
    ensures |r| == |s|
  {
    SwapSteps(s, picks, |s|)
  }

  lemma {:induction false} SwapStepsPermutes<T>(s: seq<T>, picks: seq<nat>, k: nat)
    requires k <= |s| && k <= |picks|
    ensures multiset(SwapSteps(s, picks, k)) == multiset(s)
  {
    if k > 0 {
      SwapStepsPermutes(s, picks, k - 1);
      SwapPermutes(SwapSteps(s, picks, k - 1), k - 1, picks[k - 1] % |s|);
      SwapStepsUnfold(s, picks, k);
    }
  }

  lemma SwapStepsUnfold<T>(s: seq<T>, picks: seq<nat>, k: nat)
    requires 0 < k <= |s| && k <= |picks|
    ensures SwapSteps(s, picks, k) == Swap(SwapSteps(s, picks, k - 1), k - 1, picks[k - 1] % |s|)
  {
  }

  /** The pass is a permutation: every value occurs as often afterwards as before. */
  lemma SwapPassPermutes<T>(s: seq<T>, picks: seq<nat>)
    requires |picks| == |s|
    ensures multiset(SwapPass(s, picks)) == multiset(s)
    ensures forall x :: multiset(SwapPass(s, picks))[x] == multiset(s)[x]
  {
    SwapStepsPermutes(s, picks, |s|);
  }

  /** The first k steps depend only on the first k picks. */
  lemma {:induction false} SwapStepsPicksPrefix<T>(s: seq<T>, a: seq<nat>, b: seq<nat>, k: nat)
    requires k <= |s| && k <= |a| && k <= |b| && a[..k] == b[..k]
    ensures SwapSteps(s, a, k) == SwapSteps(s, b, k)
  {
    if k > 0 {
      assert a[..k - 1] == a[..k][..k - 1] && b[..k - 1] == b[..k][..k - 1];
      assert a[k - 1] == a[..k][k - 1] && b[k - 1] == b[..k][k - 1];
      SwapStepsPicksPrefix(s, a, b, k - 1);
    }
  }

  /** An index at or after k where t holds p's k-th element, when t and p agree before k. */
  lemma {:induction false} FindNext<T>(t: seq<T>, p: seq<T>, k: nat) returns (j: nat)
    requires |p| == |t| && k < |t| && multiset(p) == multiset(t) && t[..k] == p[..k]
    ensures k <= j < |t| && t[j] == p[k]
  {
    assert t == t[..k] + t[k..] && p == p[..k] + p[k..];
    assert multiset(t) == multiset(t[..k]) + multiset(t[k..]);
    assert multiset(p) == multiset(p[..k]) + multiset(p[k..]);
    assert p[k] == p[k..][0];
    assert multiset(t[..k]) == multiset(p[..k]);
    forall x
      ensures multiset(t[k..])[x] == multiset(p[k..])[x]
    {
      assert multiset(t)[x] == multiset(t[..k])[x] + multiset(t[k..])[x];
      assert multiset(p)[x] == multiset(p[..k])[x] + multiset(p[k..])[x];
    }
    assert multiset(t[k..]) == multiset(p[k..]);
    assert p[k] in multiset(t[k..]);
    assert p[k] in t[k..];
    var i :| 0 <= i < |t[k..]| && t[k..][i] == p[k];
    j := k + i;
  }

  /** Swapping position k with a later j holding p[k] extends the agreement with p by one. */
  lemma SwapExtends<T>(t: seq<T>, p: seq<T>, k: nat, j: nat)
    requires |p| == |t| && k <= j < |t| && t[j] == p[k] && t[..k] == p[..k]
    ensures Swap(t, k, j)[..k + 1] == p[..k + 1]
  {
    var t' := Swap(t, k, j);
    forall m | 0 <= m < k + 1
      ensures t'[m] == p[m]
    {
      if m < k {
        assert t[..k][m] == p[..k][m];
      }
    }
  }

  lemma SmallMod(j: nat, n: nat)
    requires j < n
    ensures j % n == j
  {
  }

  /** One more step of the pass can be chosen to place p[k], keeping the earlier picks. */
  lemma PlaceNext<T>(s: seq<T>, p: seq<T>, picks: seq<nat>, k: nat) returns (picks': seq<nat>)
    requires |p| == |s| && |picks| == |s| && k < |s|
    requires multiset(p) == multiset(s)
    requires SwapSteps(s, picks, k)[..k] == p[..k]
    ensures |picks'| == |s| && SwapSteps(s, picks', k + 1)[..k + 1] == p[..k + 1]
  {
    var t := SwapSteps(s, picks, k);
    SwapStepsPermutes(s, picks, k);
    var j := FindNext(t, p, k);
    picks' := picks[k := j];
    assert picks'[..k] == picks[..k];
    SwapStepsPicksPrefix(s, picks, picks', k);
    SmallMod(j, |s|);
    SwapStepsUnfold(s, picks', k + 1);
    assert SwapSteps(s, picks', k + 1) == Swap(t, k, j);
    SwapExtends(t, p, k, j);
  }

  /**
   * After k steps that already placed p's first k elements, the remaining
   * picks can be chosen so that the pass ends in p.
   */
  lemma {:induction false} ReachFrom<T>(s: seq<T>, p: seq<T>, picks: seq<nat>, k: nat) returns (picks': seq<nat>)
    requires |p| == |s| && |picks| == |s| && k <= |s|
    requires multiset(p) == multiset(s)
    requires SwapSteps(s, picks, k)[..k] == p[..k]
    ensures |picks'| == |s| && SwapPass(s, picks') == p
    decreases |s| - k
  {
    if k == |s| {
      var t := SwapSteps(s, picks, k);
      assert t == t[..k] && p == p[..k];
      picks' := picks;
    } else {
      var next := PlaceNext(s, p, picks, k);
      picks' := ReachFrom(s, p, next, k + 1);
    }
  }

  /**
   * Every permutation of the input is the result of some choice of picks,
   * so "for all picks" covers every order a library shuffle can produce.
   */
  lemma EveryPermutationReachable<T>(s: seq<T>, p: seq<T>)
    requires |p| == |s| && multiset(p) == multiset(s)
    ensures exists picks :: |picks| == |s| && SwapPass(s, picks) == p
  {
    var zeros := seq(|s|, _ => 0);
    assert SwapSteps(s, zeros, 0)[..0] == p[..0];
    var picks := ReachFrom(s, p, zeros, 0);
  }

  /** A fresh array holding `s`, as a vector is built from its elements. */
  method ArrayOf<T>(s: seq<T>) returns (a: array<T>)
    ensures fresh(a) && a[..] == s
  {
    a := new T[|s|](i requires 0 <= i < |s| => s[i]);
  }

  /** The swap loop, in place, on the vertex-id array. */
  method ShuffleInPlace<T>(a: array<T>, picks: seq<nat>)
    requires |picks| == a.Length
    modifies a
    ensures a[..] == SwapPass(old(a[..]), picks)
  {
    var n := a.Length;
    var j := 0;
    while j < n
      invariant 0 <= j <= n
      invariant a[..] == SwapSteps(old(a[..]), picks, j)
    {
      var r := picks[j] % n;
      a[j], a[r] := a[r], a[j];
      j := j + 1;
    }
  }
}
