/**
 * Nebula's client-side label algorithms `cdlp` (community detection by label
 * propagation) and `wcc` (weakly connected components by min-label
 * propagation). The vertex list is the result of the all-vertices query (an
 * input), and the bidirectional neighbour query is an oracle, a Graph as in
 * the traversals. Labels live in a map from vertex id to label; reading the
 * label of a vertex that is not a key yields 0, as `operator[]` of an
 * unordered_map does.
 */
module NebulaLabels {
  import opened Shuffle
  import opened NebulaTraversal

  type Labels = map<int, int>

  /** `labels[v]`: a missing key reads as 0. */
  function Get(labels: Labels, v: int): int
  {
    if v in labels then labels[v] else 0
  }

  /** The starting labels: every vertex is labelled with its own id. */
  function Identity(ids: seq<int>): (r: Labels)
    ensures forall v :: v in r <==> v in ids
    ensures forall v :: v in r ==> r[v] == v
  {
    map v | v in ids :: v
  }

  /** The labels of the vertices of `ns`, in order. */
  function LabelsOf(labels: Labels, ns: seq<int>): (r: seq<int>)
    ensures |r| == |ns|
    ensures forall k :: 0 <= k < |ns| ==> r[k] == Get(labels, ns[k])
  {
    seq(|ns|, k requires 0 <= k < |ns| => Get(labels, ns[k]))
  }

  // ---------------------------------------------------------------------------
  // CDLP: the label a vertex adopts

  /** `l` occurs most often in `ms`, and is the smallest of the labels that do. */
  ghost predicate IsBest(ms: multiset<int>, l: int)
  {
    ms[l] > 0 && forall m :: ms[m] <= ms[l] && (ms[m] == ms[l] ==> l <= m)
  }

  lemma BestUnique(ms: multiset<int>, a: int, b: int)
    requires IsBest(ms, a) && IsBest(ms, b)
    ensures a == b
  {
  }

  /** `x` beats `y` in `ms`: it occurs more often, or as often and is smaller. */
  predicate Beats(ms: multiset<int>, x: int, y: int)
  {
    ms[x] > ms[y] || (ms[x] == ms[y] && x < y)
  }

  /** The best label among `ls`, by a scan that keeps the current winner. */
  function BestOf(ls: seq<int>, ms: multiset<int>): int
    requires |ls| > 0
  {
    if |ls| == 1 then ls[0]
    else
      var b := BestOf(ls[..|ls| - 1], ms);
      if Beats(ms, ls[|ls| - 1], b) then ls[|ls| - 1] else b
  }

  /** The label a vertex takes from its neighbours' labels `ls`: its own when it has none. */
  function NewLabel(ls: seq<int>, own: int): int
  {
    if |ls| == 0 then own else BestOf(ls, multiset(ls))
  }

  lemma {:induction false} BestOfScan(ls: seq<int>, ms: multiset<int>)
    requires |ls| > 0
    ensures BestOf(ls, ms) in ls
    ensures forall k :: 0 <= k < |ls| ==> ms[ls[k]] <= ms[BestOf(ls, ms)]
    ensures forall k :: 0 <= k < |ls| && ms[ls[k]] == ms[BestOf(ls, ms)] ==> BestOf(ls, ms) <= ls[k]
  {
    if |ls| > 1 {
      var init := ls[..|ls| - 1];
      BestOfScan(init, ms);
      assert forall k :: 0 <= k < |init| ==> init[k] == ls[k];
    }
  }

  /** With neighbours, the adopted label is the most frequent one, ties going to the smallest. */
  lemma NewLabelIsBest(ls: seq<int>, own: int)
    requires |ls| > 0
    ensures IsBest(multiset(ls), NewLabel(ls, own))
  {
    var ms := multiset(ls);
    BestOfScan(ls, ms);
    var b := BestOf(ls, ms);
    forall m ensures ms[m] <= ms[b] && (ms[m] == ms[b] ==> b <= m) {
      if m in ms {
        var k :| 0 <= k < |ls| && ls[k] == m;
      }
    }
  }

  /** `counts` is the labelCounts map of the multiset `ms`. */
  ghost predicate CountsOf(counts: map<int, nat>, ms: multiset<int>)
  {
    forall l :: (l in counts <==> ms[l] > 0) && (l in counts ==> counts[l] == ms[l])
  }

  /** One `labelCounts[x]++`. */
  lemma CountsStep(counts: map<int, nat>, ms: multiset<int>, x: int)
    requires CountsOf(counts, ms)
    ensures CountsOf(counts[x := (if x in counts then counts[x] else 0) + 1], ms + multiset{x})
  {
  }

  lemma LabelsOfSnoc(labels: Labels, ns: seq<int>, k: nat)
    requires k < |ns|
    ensures multiset(LabelsOf(labels, ns[..k + 1])) == multiset(LabelsOf(labels, ns[..k])) + multiset{Get(labels, ns[k])}
  {
    assert LabelsOf(labels, ns[..k + 1]) == LabelsOf(labels, ns[..k]) + [Get(labels, ns[k])];
  }

  /** The counting loop: labelCounts[labels[n]]++ for every neighbour n. */
  method CountLabels(labels: Labels, ns: seq<int>) returns (counts: map<int, nat>)
    ensures CountsOf(counts, multiset(LabelsOf(labels, ns)))
  {
    counts := map[];
    var k := 0;
    while k < |ns|
      invariant 0 <= k <= |ns|
      invariant CountsOf(counts, multiset(LabelsOf(labels, ns[..k])))
    {
      var x := Get(labels, ns[k]);
      CountsStep(counts, multiset(LabelsOf(labels, ns[..k])), x);
      LabelsOfSnoc(labels, ns, k);
      counts := counts[x := (if x in counts then counts[x] else 0) + 1];
      k := k + 1;
    }
    assert ns[..|ns|] == ns;
  }

  lemma NonEmptyHas(s: set<int>) returns (x: int)
    requires s != {}
    ensures x in s
  {
    if forall y :: y !in s {
      assert false;
    }
    x :| x in s;
  }

  /**
   * The selection loop over labelCounts, in the map's unspecified iteration
   * order (each step picks any key not yet visited). Whatever the order, the
   * result is the most frequent label, ties going to the smallest, or the
   * vertex's own label when it has no neighbours.
   */
  method SelectLabel(counts: map<int, nat>, own: int) returns (chosen: int)
    requires forall l :: l in counts ==> counts[l] > 0
    ensures counts == map[] ==> chosen == own
    ensures counts != map[] ==> chosen in counts
    ensures forall m :: m in counts ==> counts[m] <= counts[chosen] && (counts[m] == counts[chosen] ==> chosen <= m)
  {
    var maxCount: int := -1;
    chosen := own;
    var rest := counts.Keys;
    ghost var seen: set<int> := {};
    while rest != {}
      invariant rest + seen == counts.Keys && rest !! seen
      invariant seen == {} ==> maxCount == -1 && chosen == own
      invariant seen != {} ==> chosen in seen && maxCount == counts[chosen]
      invariant forall m :: m in seen ==> counts[m] <= maxCount && (counts[m] == maxCount ==> chosen <= m)
      decreases rest
    {
      ghost var some := NonEmptyHas(rest);
      var l :| l in rest;
      if counts[l] > maxCount || (counts[l] == maxCount && l < chosen) {
        maxCount, chosen := counts[l], l;
      }
      rest := rest - {l};
      seen := seen + {l};
    }
    if counts != map[] {
      assert counts.Keys != {};
    }
  }

  /** The label the selection loop settles on is NewLabel of the neighbours' labels. */
  lemma SelectedIsNewLabel(counts: map<int, nat>, ls: seq<int>, own: int, chosen: int)
    requires CountsOf(counts, multiset(ls))
    requires counts == map[] ==> chosen == own
    requires counts != map[] ==> chosen in counts
    requires forall m :: m in counts ==> counts[m] <= counts[chosen] && (counts[m] == counts[chosen] ==> chosen <= m)
    ensures chosen == NewLabel(ls, own)
  {
    var ms := multiset(ls);
    if |ls| == 0 {
      assert counts == map[];
    } else {
      assert ls[0] in ms;
      NewLabelIsBest(ls, own);
      forall m ensures ms[m] <= ms[chosen] && (ms[m] == ms[chosen] ==> chosen <= m) {
        if m in counts {
        }
      }
      BestUnique(ms, chosen, NewLabel(ls, own));
    }
  }

  /** One vertex of a CDLP pass: the new labels and whether this vertex changed. */
  function CdlpUpdate(g: Graph, labels: Labels, v: int): (Labels, bool)
  {
    var own := Get(labels, v);
    var l := NewLabel(LabelsOf(labels, Out(g, v)), own);
    if l != own then (labels[v := l], true) else (labels, false)
  }

  /** A pass over `order`: each vertex sees the updates made earlier in the same pass. */
  function CdlpPass(g: Graph, labels: Labels, order: seq<int>): (Labels, bool)
  {
    if |order| == 0 then (labels, false)
    else
      var (l, c) := CdlpPass(g, labels, order[..|order| - 1]);
      var (l', c') := CdlpUpdate(g, l, order[|order| - 1]);
      (l', c || c')
  }

  method UpdateVertex(g: Graph, labels: Labels, v: int) returns (labels': Labels, changed: bool)
    ensures (labels', changed) == CdlpUpdate(g, labels, v)
  {
    var ns := Out(g, v);
    var counts := CountLabels(labels, ns);
    var own := Get(labels, v);
    var chosen := SelectLabel(counts, own);
    SelectedIsNewLabel(counts, LabelsOf(labels, ns), own, chosen);
    if chosen != own {
      labels', changed := labels[v := chosen], true;
    } else {
      labels', changed := labels, false;
    }
  }

  method PassOver(g: Graph, labels: Labels, order: seq<int>) returns (labels': Labels, changed: bool)
    ensures (labels', changed) == CdlpPass(g, labels, order)
  {
    labels', changed := labels, false;
    var j := 0;
    while j < |order|
      invariant 0 <= j <= |order|
      invariant (labels', changed) == CdlpPass(g, labels, order[..j])
    {
      assert order[..j + 1][..j] == order[..j];
      var l, c := UpdateVertex(g, labels', order[j]);
      labels', changed := l, changed || c;
      j := j + 1;
    }
    assert order[..|order|] == order;
  }

  const MaxIters: nat := 10

  /** Passes i, i+1, ... of CDLP: shuffle, pass, and stop after a pass without change or after 10. */
  function CdlpFrom(g: Graph, order: seq<int>, labels: Labels, picks: seq<seq<nat>>, i: nat): (Labels, nat)
    requires i <= MaxIters && |picks| == MaxIters
    requires forall p :: 0 <= p < MaxIters ==> |picks[p]| == |order|
    decreases MaxIters - i
  {
    if i == MaxIters then (labels, i)
    else
      var order' := SwapPass(order, picks[i]);
      var (l, c) := CdlpPass(g, labels, order');
      if !c then (l, i + 1) else CdlpFrom(g, order', l, picks, i + 1)
  }

  /**
   * cdlp: labels start as the identity on the vertex list, and each of at most
   * 10 passes first swaps the list in place (`picks[i]` are the pass's random
   * numbers) and then updates every vertex in list order. `passes` is the
   * number of passes run.
   */
  method Cdlp(g: Graph, ids: seq<int>, picks: seq<seq<nat>>) returns (labels: Labels, passes: nat)
    requires |picks| == MaxIters && forall p :: 0 <= p < MaxIters ==> |picks[p]| == |ids|
    ensures (labels, passes) == CdlpFrom(g, ids, Identity(ids), picks, 0)
  {
    var a := ArrayOf(ids);
    labels := Identity(ids);
    var i := 0;
    while i < MaxIters
      invariant 0 <= i <= MaxIters && a.Length == |ids|
      invariant CdlpFrom(g, a[..], labels, picks, i) == CdlpFrom(g, ids, Identity(ids), picks, 0)
      decreases MaxIters - i
    {
      ghost var before := a[..];
      ghost var prev := labels;
      var changed;
      labels, changed := ShuffleAndPass(g, a, labels, picks[i]);
      CdlpFromStep(g, before, prev, picks, i, a[..], labels, changed);
      if !changed {
        return labels, i + 1;
      }
      i := i + 1;
    }
    passes := MaxIters;
  }

  /** The body of the cdlp loop: shuffle the vertex list in place, then one pass over it. */
  method ShuffleAndPass(g: Graph, a: array<int>, labels: Labels, picks: seq<nat>) returns (labels': Labels, changed: bool)
    requires |picks| == a.Length
    modifies a
    ensures a[..] == SwapPass(old(a[..]), picks)
    ensures (labels', changed) == CdlpPass(g, labels, a[..])
  {
    ShuffleInPlace(a, picks);
    labels', changed := PassOver(g, labels, a[..]);
  }

  /** One pass of CdlpFrom, for a pass given by its shuffled order and its result. */
  lemma CdlpFromStep(g: Graph, order: seq<int>, labels: Labels, picks: seq<seq<nat>>, i: nat,
                     order': seq<int>, l: Labels, c: bool)
    requires i < MaxIters && |picks| == MaxIters
    requires forall p :: 0 <= p < MaxIters ==> |picks[p]| == |order|
    requires order' == SwapPass(order, picks[i]) && (l, c) == CdlpPass(g, labels, order')
    ensures !c ==> CdlpFrom(g, order, labels, picks, i) == (l, i + 1)
    ensures c ==> |order'| == |order| && CdlpFrom(g, order, labels, picks, i) == CdlpFrom(g, order', l, picks, i + 1)
  {
  }

  /** A CDLP update only ever relabels the vertex itself, with a label some neighbour carries. */
  lemma UpdateDraws(g: Graph, labels: Labels, v: int)
    ensures CdlpUpdate(g, labels, v).0.Keys == labels.Keys + {v} || CdlpUpdate(g, labels, v).0 == labels
    ensures forall u :: u in CdlpUpdate(g, labels, v).0 && u != v ==> CdlpUpdate(g, labels, v).0[u] == labels[u]
    ensures CdlpUpdate(g, labels, v).1 ==>
      exists k :: 0 <= k < |Out(g, v)| && CdlpUpdate(g, labels, v).0[v] == Get(labels, Out(g, v)[k])
    ensures !CdlpUpdate(g, labels, v).1 ==> CdlpUpdate(g, labels, v).0 == labels
  {
    var ls := LabelsOf(labels, Out(g, v));
    if CdlpUpdate(g, labels, v).1 {
      assert |ls| > 0;
      NewLabelIsBest(ls, Get(labels, v));
      var l := NewLabel(ls, Get(labels, v));
      assert l in multiset(ls);
      var k :| 0 <= k < |ls| && ls[k] == l;
    }
  }

  /** Every label CDLP hands out is a vertex id of the list, or 0 for a neighbour outside it. */
  predicate DrawnFrom(labels: Labels, ids: seq<int>)
  {
    forall v :: v in labels ==> v in ids && (labels[v] in ids || labels[v] == 0)
  }

  lemma {:induction false} PassDraws(g: Graph, labels: Labels, order: seq<int>, ids: seq<int>)
    requires DrawnFrom(labels, ids)
    requires forall k :: 0 <= k < |order| ==> order[k] in ids
    ensures DrawnFrom(CdlpPass(g, labels, order).0, ids)
  {
    if |order| > 0 {
      var init := order[..|order| - 1];
      assert forall k :: 0 <= k < |init| ==> init[k] == order[k];
      PassDraws(g, labels, init, ids);
      var l := CdlpPass(g, labels, init).0;
      var v := order[|order| - 1];
      UpdateDraws(g, l, v);
      var l' := CdlpUpdate(g, l, v).0;
      if CdlpUpdate(g, l, v).1 {
        var k :| 0 <= k < |Out(g, v)| && l'[v] == Get(l, Out(g, v)[k]);
        assert l'[v] in ids || l'[v] == 0;
      }
    }
  }

  /** A pass that reports no change leaves the labels as they were. */
  lemma {:induction false} PassUnchanged(g: Graph, labels: Labels, order: seq<int>)
    ensures !CdlpPass(g, labels, order).1 ==> CdlpPass(g, labels, order).0 == labels
  {
    if |order| > 0 {
      var init := order[..|order| - 1];
      PassUnchanged(g, labels, init);
      UpdateDraws(g, CdlpPass(g, labels, init).0, order[|order| - 1]);
    }
  }

  lemma {:induction false} CdlpFromDraws(g: Graph, order: seq<int>, labels: Labels, picks: seq<seq<nat>>, i: nat,
                                         ids: seq<int>)
    requires i <= MaxIters && |picks| == MaxIters
    requires forall p :: 0 <= p < MaxIters ==> |picks[p]| == |order|
    requires multiset(order) == multiset(ids) && DrawnFrom(labels, ids)
    ensures DrawnFrom(CdlpFrom(g, order, labels, picks, i).0, ids)
    ensures i < MaxIters ==> i < CdlpFrom(g, order, labels, picks, i).1
    ensures CdlpFrom(g, order, labels, picks, i).1 <= MaxIters
    decreases MaxIters - i
  {
    if i < MaxIters {
      var order' := SwapPass(order, picks[i]);
      SwapPassPermutes(order, picks[i]);
      forall k | 0 <= k < |order'| ensures order'[k] in ids {
        assert order'[k] in multiset(order');
      }
      PassDraws(g, labels, order', ids);
      var l := CdlpPass(g, labels, order').0;
      if CdlpPass(g, labels, order').1 {
        CdlpFromDraws(g, order', l, picks, i + 1, ids);
      }
    }
  }

  /**
   * CDLP runs between 1 and 10 passes, keeps the vertex list as its key set,
   * and only hands out labels that are vertex ids (or 0, the reading of a
   * neighbour outside the list).
   */
  lemma CdlpResult(g: Graph, ids: seq<int>, picks: seq<seq<nat>>)
    requires |picks| == MaxIters && forall p :: 0 <= p < MaxIters ==> |picks[p]| == |ids|
    ensures 1 <= CdlpFrom(g, ids, Identity(ids), picks, 0).1 <= MaxIters
    ensures DrawnFrom(CdlpFrom(g, ids, Identity(ids), picks, 0).0, ids)
  {
    CdlpFromDraws(g, ids, Identity(ids), picks, 0, ids);
  }

  /** A run that stopped before the cap ended with a pass that left the labels as they were. */
  lemma CdlpStopsOnStablePass(g: Graph, order: seq<int>, labels: Labels, picks: seq<seq<nat>>, i: nat)
    requires i < MaxIters && |picks| == MaxIters
    requires forall p :: 0 <= p < MaxIters ==> |picks[p]| == |order|
    requires !CdlpPass(g, labels, SwapPass(order, picks[i])).1
    ensures CdlpFrom(g, order, labels, picks, i) == (labels, i + 1)
  {
    PassUnchanged(g, labels, SwapPass(order, picks[i]));
  }

  // ---------------------------------------------------------------------------
  // WCC

  /** The smallest of `own` and the labels `ls`: the min_val scan. */
  function MinScan(own: int, ls: seq<int>): (m: int)
    ensures m <= own && forall k :: 0 <= k < |ls| ==> m <= ls[k]
    ensures m == own || exists k :: 0 <= k < |ls| && m == ls[k]
  {
    if |ls| == 0 then own
    else
      var m := MinScan(own, ls[..|ls| - 1]);
      assert forall k :: 0 <= k < |ls| - 1 ==> ls[..|ls| - 1][k] == ls[k];
      if ls[|ls| - 1] < m then ls[|ls| - 1] else m
  }

  /** The label a vertex takes in a WCC round, from the labels of the previous round. */
  function WccValue(g: Graph, labels: Labels, v: int): int
  {
    MinScan(Get(labels, v), LabelsOf(labels, Out(g, v)))
  }

  /** One synchronous round: new_labels over the vertex list, all read from the old labels. */
  function WccRound(g: Graph, ids: seq<int>, labels: Labels): (r: Labels)
    ensures forall v :: v in r <==> v in ids
    ensures forall v :: v in r ==> r[v] == WccValue(g, labels, v)
  {
    map v | v in ids :: WccValue(g, labels, v)
  }

  /** Some vertex of the list got a different label. */
  ghost predicate Changed(ids: seq<int>, old_: Labels, new_: Labels)
  {
    exists i :: 0 <= i < |ids| && Get(new_, ids[i]) != Get(old_, ids[i])
  }

  /** The min_val loop over the neighbours of one vertex. */
  method MinLabel(labels: Labels, ns: seq<int>, own: int) returns (m: int)
    ensures m == MinScan(own, LabelsOf(labels, ns))
  {
    m := own;
    var k := 0;
    while k < |ns|
      invariant 0 <= k <= |ns|
      invariant m == MinScan(own, LabelsOf(labels, ns[..k]))
    {
      assert LabelsOf(labels, ns[..k + 1]) == LabelsOf(labels, ns[..k]) + [Get(labels, ns[k])];
      if Get(labels, ns[k]) < m {
        m := Get(labels, ns[k]);
      }
      k := k + 1;
    }
    assert ns[..|ns|] == ns;
  }

  /** A map that holds WccValue at exactly the listed vertices is the round's result. */
  lemma RoundByPoints(g: Graph, ids: seq<int>, labels: Labels, nl: Labels)
    requires forall v :: v in nl <==> v in ids
    requires forall v :: v in nl ==> nl[v] == WccValue(g, labels, v)
    ensures nl == WccRound(g, ids, labels)
  {
  }

  lemma ChangedAt(g: Graph, ids: seq<int>, labels: Labels, nl: Labels)
    requires nl == WccRound(g, ids, labels)
    ensures Changed(ids, labels, nl) <==> exists k :: 0 <= k < |ids| && WccValue(g, labels, ids[k]) != Get(labels, ids[k])
  {
    assert forall k :: 0 <= k < |ids| ==> Get(nl, ids[k]) == WccValue(g, labels, ids[k]);
  }

  /** One round of the wcc loop. */
  method WccPass(g: Graph, ids: seq<int>, labels: Labels) returns (newLabels: Labels, changed: bool)
    ensures newLabels == WccRound(g, ids, labels)
    ensures changed <==> Changed(ids, labels, newLabels)
  {
    newLabels := map[];
    changed := false;
    var i := 0;
    while i < |ids|
      invariant 0 <= i <= |ids|
      invariant forall v :: v in newLabels <==> v in ids[..i]
      invariant forall v :: v in newLabels ==> newLabels[v] == WccValue(g, labels, v)
      invariant changed <==> exists k :: 0 <= k < i && WccValue(g, labels, ids[k]) != Get(labels, ids[k])
    {
      var v := ids[i];
      var own := Get(labels, v);
      var m := MinLabel(labels, Out(g, v), own);
      assert forall u :: u in ids[..i + 1] <==> u in ids[..i] || u == v;
      newLabels := newLabels[v := m];
      if m != own {
        changed := true;
      }
      i := i + 1;
    }
    assert ids[..|ids|] == ids;
    RoundByPoints(g, ids, labels, newLabels);
    ChangedAt(g, ids, labels, newLabels);
  }

  /** Every label is at least `lo`, and the keys are the vertex list. */
  ghost predicate Bounded(labels: Labels, ids: seq<int>, lo: int)
  {
    (forall v :: v in labels <==> v in ids) && forall v :: v in labels ==> lo <= labels[v]
  }

  function Height(x: int, lo: int): nat
  {
    if x >= lo then x - lo else 0
  }

  /** The height of the labels above `lo`, summed over the vertex list. */
  function Potential(labels: Labels, ids: seq<int>, lo: int): nat
  {
    if |ids| == 0 then 0
    else Potential(labels, ids[..|ids| - 1], lo) + Height(Get(labels, ids[|ids| - 1]), lo)
  }

  /** Lowering no label and some label strictly lowers the potential. */
  lemma {:induction false} PotentialDecreases(ids: seq<int>, a: Labels, b: Labels, lo: int)
    requires forall k :: 0 <= k < |ids| ==> lo <= Get(b, ids[k]) <= Get(a, ids[k])
    ensures Potential(b, ids, lo) <= Potential(a, ids, lo)
    ensures Changed(ids, a, b) ==> Potential(b, ids, lo) < Potential(a, ids, lo)
  {
    if |ids| > 0 {
      var init := ids[..|ids| - 1];
      assert forall k :: 0 <= k < |init| ==> init[k] == ids[k];
      PotentialDecreases(init, a, b, lo);
      if Changed(ids, a, b) && !Changed(init, a, b) {
        var i :| 0 <= i < |ids| && Get(b, ids[i]) != Get(a, ids[i]);
        assert i == |ids| - 1;
      }
    }
  }

  /** A round keeps the key set and the lower bound and lowers no label. */
  lemma RoundLowers(g: Graph, ids: seq<int>, labels: Labels, lo: int)
    requires Bounded(labels, ids, lo) && lo <= 0
    ensures Bounded(WccRound(g, ids, labels), ids, lo)
    ensures forall v :: v in labels ==> WccRound(g, ids, labels)[v] <= labels[v]
  {
    var r := WccRound(g, ids, labels);
    forall v | v in r ensures lo <= r[v] && r[v] <= labels[v] {
      var ls := LabelsOf(labels, Out(g, v));
      assert r[v] == Get(labels, v) || exists k :: 0 <= k < |ls| && r[v] == ls[k];
    }
  }

  /** A round that changed nothing is the identity on the labels. */
  lemma RoundUnchanged(g: Graph, ids: seq<int>, labels: Labels)
    requires forall v :: v in labels <==> v in ids
    requires !Changed(ids, labels, WccRound(g, ids, labels))
    ensures WccRound(g, ids, labels) == labels
  {
    var r := WccRound(g, ids, labels);
    forall v | v in labels ensures r[v] == labels[v] {
      var i :| 0 <= i < |ids| && ids[i] == v;
      assert Get(r, ids[i]) == Get(labels, ids[i]);
    }
  }

  /** The smallest vertex id, or 0 if that is smaller. */
  function Floor(ids: seq<int>): (lo: int)
    ensures lo <= 0 && forall k :: 0 <= k < |ids| ==> lo <= ids[k]
  {
    MinScan(0, ids)
  }

  /**
   * wcc: start from the identity labels and run synchronous rounds until one
   * changes nothing. The result keeps the vertex list as its keys, is stable
   * under one more round, and lowers every label from its vertex's own id.
   */
  method Wcc(g: Graph, ids: seq<int>) returns (labels: Labels)
    ensures forall v :: v in labels <==> v in ids
    ensures WccRound(g, ids, labels) == labels
    ensures forall v :: v in labels ==> labels[v] <= v
  {
    labels := Identity(ids);
    ghost var lo := Floor(ids);
    var changed := true;
    while changed
      invariant Bounded(labels, ids, lo)
      invariant forall v :: v in labels ==> labels[v] <= v
      invariant !changed ==> WccRound(g, ids, labels) == labels
      decreases Potential(labels, ids, lo), changed
    {
      var next, c := WccPass(g, ids, labels);
      WccStep(g, ids, labels, lo);
      labels, changed := next, c;
    }
  }

  /**
   * One round keeps the invariant of the wcc loop, lowers the potential when
   * it changes a label, and is the identity when it changes none.
   */
  lemma WccStep(g: Graph, ids: seq<int>, labels: Labels, lo: int)
    requires Bounded(labels, ids, lo) && lo <= 0
    requires forall v :: v in labels ==> labels[v] <= v
    ensures var next := WccRound(g, ids, labels);
      Bounded(next, ids, lo) && (forall v :: v in next ==> next[v] <= v) &&
      (Changed(ids, labels, next) ==> Potential(next, ids, lo) < Potential(labels, ids, lo)) &&
      (!Changed(ids, labels, next) ==> next == labels)
  {
    var next := WccRound(g, ids, labels);
    RoundLowers(g, ids, labels, lo);
    forall k | 0 <= k < |ids| ensures lo <= Get(next, ids[k]) <= Get(labels, ids[k]) {
      var v := ids[k];
      assert v in ids;
      assert v in labels && v in next;
    }
    PotentialDecreases(ids, labels, next, lo);
    if !Changed(ids, labels, next) {
      RoundUnchanged(g, ids, labels);
    }
  }

  /** In a stable labelling no vertex has a neighbour with a smaller label. */
  lemma StableHasNoSmallerNeighbour(g: Graph, ids: seq<int>, labels: Labels, v: int, u: int)
    requires WccRound(g, ids, labels) == labels && v in ids && u in Out(g, v)
    ensures Get(labels, v) <= Get(labels, u)
  {
    var ns := Out(g, v);
    var k :| 0 <= k < |ns| && ns[k] == u;
    assert LabelsOf(labels, ns)[k] == Get(labels, u);
  }

  /**
   * When the neighbour query is symmetric on the vertex list, a stable
   * labelling is constant along every walk inside the list, so each
   * connected component carries a single label.
   */
  lemma {:induction false} StableConstantOnWalks(g: Graph, ids: seq<int>, labels: Labels, w: seq<int>)
    requires WccRound(g, ids, labels) == labels
    requires forall a, b :: a in ids && b in ids ==> (b in Out(g, a) <==> a in Out(g, b))
    requires IsWalk(g, w) && forall k :: 0 <= k < |w| ==> w[k] in ids
    ensures Get(labels, w[0]) == Get(labels, w[|w| - 1])
  {
    if |w| > 1 {
      var p := w[..|w| - 1];
      WalkPrefix(g, w);
      StableConstantOnWalks(g, ids, labels, p);
      var a, b := w[|w| - 2], w[|w| - 1];
      assert b in Out(g, a) && a in Out(g, b);
      StableHasNoSmallerNeighbour(g, ids, labels, a, b);
      StableHasNoSmallerNeighbour(g, ids, labels, b, a);
    }
  }
}
