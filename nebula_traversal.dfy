/**
 * Nebula's client-side traversals `bfs` and `sssp`. The store's out-neighbour
 * query is an oracle: a map from a vertex to the ids its query returns, in
 * order (a vertex with no entry has none). Neither traversal keeps a visited
 * set, so a vertex is expanded once per walk that reaches it.
 *
 * Reference definition: level k is the sequence of endpoints of all walks of
 * length k from the start, in the order a FIFO queue produces them. BFS then
 * expands exactly the levels below `depth`, and SSSP pops the level-order
 * stream until the target comes out.
 */
module NebulaTraversal {
  import opened Batching

  type Graph = map<int, seq<int>>

  /** The result of the out-neighbour query for `v`. */
  function Out(g: Graph, v: int): seq<int>
  {
    if v in g then g[v] else []
  }

  /** The out-neighbours of every vertex of `xs`, one list after the other. */
  function Expand(g: Graph, xs: seq<int>): seq<int>
  {
    if |xs| == 0 then [] else Expand(g, xs[..|xs| - 1]) + Out(g, xs[|xs| - 1])
  }

  /** The vertices a FIFO queue holds at depth k, in queue order. */
  function Level(g: Graph, start: int, k: nat): seq<int>
  {
    if k == 0 then [start] else Expand(g, Level(g, start, k - 1))
  }

  /** The queue entries `(v, d)` for the vertices of `xs`. */
  function Tag(xs: seq<int>, d: nat): (r: seq<(int, nat)>)
    ensures |r| == |xs|
    ensures forall i :: 0 <= i < |xs| ==> r[i] == (xs[i], d)
  {
    seq(|xs|, i requires 0 <= i < |xs| => (xs[i], d))
  }

  /** All levels below n, tagged with their depth, in order. */
  function Upto(g: Graph, start: int, n: nat): seq<(int, nat)>
  {
    if n == 0 then [] else Upto(g, start, n - 1) + Tag(Level(g, start, n - 1), n - 1)
  }

  // ---------------------------------------------------------------------------
  // Walks

  /** Consecutive vertices of `w` are joined by an out-neighbour entry. */
  predicate IsWalk(g: Graph, w: seq<int>)
  {
    |w| > 0 && forall i :: 0 <= i < |w| - 1 ==> w[i + 1] in Out(g, w[i])
  }

  /** Some walk of exactly k steps leads from `start` to `v`. */
  ghost predicate WalkTo(g: Graph, start: int, v: int, k: nat)
  {
    exists w :: IsWalk(g, w) && |w| == k + 1 && w[0] == start && w[k] == v
  }

  /** u is listed by Expand(xs) exactly when it is an out-neighbour of some vertex of xs. */
  lemma {:induction false} InExpand(g: Graph, xs: seq<int>, u: int)
    ensures u in Expand(g, xs) <==> exists i :: 0 <= i < |xs| && u in Out(g, xs[i])
  {
    if |xs| > 0 {
      var init := xs[..|xs| - 1];
      InExpand(g, init, u);
      assert forall i :: 0 <= i < |init| ==> init[i] == xs[i];
    }
  }

  lemma ExtendWalk(g: Graph, w: seq<int>, u: int)
    requires IsWalk(g, w) && u in Out(g, w[|w| - 1])
    ensures IsWalk(g, w + [u])
  {
    var w' := w + [u];
    forall i | 0 <= i < |w'| - 1 ensures w'[i + 1] in Out(g, w'[i]) {
      if i < |w| - 1 {
        assert w'[i] == w[i] && w'[i + 1] == w[i + 1];
      }
    }
  }

  lemma WalkPrefix(g: Graph, w: seq<int>)
    requires IsWalk(g, w) && |w| > 1
    ensures IsWalk(g, w[..|w| - 1])
  {
    var p := w[..|w| - 1];
    forall i | 0 <= i < |p| - 1 ensures p[i + 1] in Out(g, p[i]) {
      assert p[i] == w[i] && p[i + 1] == w[i + 1];
    }
  }

  /** A vertex of level k is the end of a walk of k steps. */
  lemma {:induction false} LevelWalk(g: Graph, start: int, k: nat, v: int)
    requires v in Level(g, start, k)
    ensures WalkTo(g, start, v, k)
  {
    if k == 0 {
      assert IsWalk(g, [start]) && [start][0] == start;
    } else {
      var prev := Level(g, start, k - 1);
      InExpand(g, prev, v);
      var i :| 0 <= i < |prev| && v in Out(g, prev[i]);
      LevelWalk(g, start, k - 1, prev[i]);
      var w :| IsWalk(g, w) && |w| == k && w[0] == start && w[k - 1] == prev[i];
      StepWalk(g, start, k, w, v);
    }
  }

  /** A walk of k - 1 steps followed by one more out-neighbour is a walk of k steps. */
  lemma StepWalk(g: Graph, start: int, k: nat, w: seq<int>, v: int)
    requires IsWalk(g, w) && |w| == k > 0 && w[0] == start && v in Out(g, w[k - 1])
    ensures WalkTo(g, start, v, k)
  {
    ExtendWalk(g, w, v);
    var w' := w + [v];
    assert w'[0] == start && w'[k] == v && |w'| == k + 1;
  }

  /** The end of a walk of k steps is a vertex of level k. */
  lemma {:induction false} WalkLevel(g: Graph, start: int, k: nat, w: seq<int>)
    requires IsWalk(g, w) && |w| == k + 1 && w[0] == start
    ensures w[k] in Level(g, start, k)
  {
    if k > 0 {
      WalkPrefix(g, w);
      var p := w[..k];
      assert p[0] == start && p[k - 1] == w[k - 1];
      WalkLevel(g, start, k - 1, p);
      var prev := Level(g, start, k - 1);
      var i :| 0 <= i < |prev| && prev[i] == w[k - 1];
      assert w[k] in Out(g, prev[i]);
      InExpand(g, prev, w[k]);
    }
  }

  /** Level k lists exactly the vertices that a walk of k steps from `start` ends at. */
  lemma LevelIsWalkEnds(g: Graph, start: int, k: nat, v: int)
    ensures v in Level(g, start, k) <==> WalkTo(g, start, v, k)
  {
    if v in Level(g, start, k) {
      LevelWalk(g, start, k, v);
    }
    if WalkTo(g, start, v, k) {
      var w :| IsWalk(g, w) && |w| == k + 1 && w[0] == start && w[k] == v;
      WalkLevel(g, start, k, w);
    }
  }

  /** Once a level is empty, every later one is. */
  lemma {:induction false} EmptyLevelStays(g: Graph, start: int, d: nat, k: nat)
    requires Level(g, start, d) == [] && d <= k
    ensures Level(g, start, k) == []
    decreases k - d
  {
    if d < k {
      assert Level(g, start, d + 1) == Expand(g, []);
      EmptyLevelStays(g, start, d + 1, k);
    }
  }

  lemma {:induction false} UptoStays(g: Graph, start: int, d: nat, n: nat)
    requires Level(g, start, d) == [] && d <= n
    ensures Upto(g, start, n) == Upto(g, start, d)
    decreases n - d
  {
    if d < n {
      UptoStays(g, start, d, n - 1);
      EmptyLevelStays(g, start, d, n - 1);
    }
  }

  /** The entries a level adds are tagged with its depth and are ends of walks of that length. */
  lemma LevelEntries(g: Graph, start: int, k: nat, prev: seq<(int, nat)>, u: seq<(int, nat)>)
    requires u == prev + Tag(Level(g, start, k), k)
    ensures forall i :: |prev| <= i < |u| ==> u[i].1 == k && WalkTo(g, start, u[i].0, k)
  {
    var lv := Level(g, start, k);
    forall i | |prev| <= i < |u| ensures u[i].1 == k && WalkTo(g, start, u[i].0, k) {
      assert u[i] == (lv[i - |prev|], k);
      LevelWalk(g, start, k, lv[i - |prev|]);
    }
  }

  /** Every entry of Upto(n) sits at a depth below n that a walk reaches it at, depths in non-decreasing order. */
  lemma {:induction false} UptoShape(g: Graph, start: int, n: nat)
    ensures forall i :: 0 <= i < |Upto(g, start, n)| ==>
      Upto(g, start, n)[i].1 < n && WalkTo(g, start, Upto(g, start, n)[i].0, Upto(g, start, n)[i].1)
    ensures forall i, j :: 0 <= i <= j < |Upto(g, start, n)| ==> Upto(g, start, n)[i].1 <= Upto(g, start, n)[j].1
  {
    if n > 0 {
      UptoShape(g, start, n - 1);
      var prev := Upto(g, start, n - 1);
      var u := Upto(g, start, n);
      LevelEntries(g, start, n - 1, prev, u);
      assert forall i :: 0 <= i < |prev| ==> u[i] == prev[i];
    }
  }

  // ---------------------------------------------------------------------------
  // BFS

  /** The queue after popping the first j entries of level d (and pushing their neighbours). */
  function BfsQueue(g: Graph, start: int, d: nat, j: nat): seq<(int, nat)>
    requires j <= |Level(g, start, d)|
  {
    Tag(Level(g, start, d)[j..], d) + Tag(Expand(g, Level(g, start, d)[..j]), d + 1)
  }

  /** The entries expanded by then. */
  function BfsDone(g: Graph, start: int, d: nat, j: nat): seq<(int, nat)>
    requires j <= |Level(g, start, d)|
  {
    Upto(g, start, d) + Tag(Level(g, start, d)[..j], d)
  }

  lemma TagAppend(xs: seq<int>, ys: seq<int>, d: nat)
    ensures Tag(xs + ys, d) == Tag(xs, d) + Tag(ys, d)
  {
  }

  lemma ExpandSnoc(g: Graph, xs: seq<int>, j: nat)
    requires j < |xs|
    ensures Expand(g, xs[..j + 1]) == Expand(g, xs[..j]) + Out(g, xs[j])
  {
    assert xs[..j + 1][..j] == xs[..j];
  }

  /** The queue step on plain sequences: pop the head of `lv[j..]`, push `o` behind `e`. */
  lemma TagPop(lv: seq<int>, e: seq<int>, o: seq<int>, j: nat, d: nat)
    requires j < |lv|
    ensures (Tag(lv[j..], d) + Tag(e, d + 1))[0] == (lv[j], d)
    ensures (Tag(lv[j..], d) + Tag(e, d + 1))[1..] + Tag(o, d + 1) == Tag(lv[j + 1..], d) + Tag(e + o, d + 1)
  {
    var q := Tag(lv[j..], d) + Tag(e, d + 1);
    var r := Tag(lv[j + 1..], d) + Tag(e + o, d + 1);
    assert |q[1..] + Tag(o, d + 1)| == |r|;
    forall i | 0 <= i < |r| ensures (q[1..] + Tag(o, d + 1))[i] == r[i] {
      if i < |lv| - j - 1 {
        assert r[i] == (lv[j + 1 + i], d);
      } else if i < |lv| - j - 1 + |e| {
        assert r[i] == (e[i - (|lv| - j - 1)], d + 1);
      } else {
        assert r[i] == (o[i - (|lv| - j - 1) - |e|], d + 1);
      }
    }
  }

  lemma TagDone(u: seq<(int, nat)>, lv: seq<int>, j: nat, d: nat)
    requires j < |lv|
    ensures u + Tag(lv[..j], d) + [(lv[j], d)] == u + Tag(lv[..j + 1], d)
  {
    assert Tag(lv[..j], d) + [(lv[j], d)] == Tag(lv[..j + 1], d);
  }

  /** Popping the next entry of level d and pushing its neighbours at depth d + 1. */
  lemma BfsAdvance(g: Graph, start: int, d: nat, j: nat)
    requires j < |Level(g, start, d)|
    ensures var v := Level(g, start, d)[j];
      BfsQueue(g, start, d, j)[0] == (v, d) &&
      BfsQueue(g, start, d, j)[1..] + Tag(Out(g, v), d + 1) == BfsQueue(g, start, d, j + 1) &&
      BfsDone(g, start, d, j) + [(v, d)] == BfsDone(g, start, d, j + 1)
  {
    var lv := Level(g, start, d);
    ExpandSnoc(g, lv, j);
    TagPop(lv, Expand(g, lv[..j]), Out(g, lv[j]), j, d);
    TagDone(Upto(g, start, d), lv, j, d);
  }

  /** After the last entry of level d the queue is exactly level d + 1. */
  lemma BfsNextLevel(g: Graph, start: int, d: nat)
    ensures BfsQueue(g, start, d, |Level(g, start, d)|) == BfsQueue(g, start, d + 1, 0)
    ensures BfsDone(g, start, d, |Level(g, start, d)|) == BfsDone(g, start, d + 1, 0)
  {
    var lv := Level(g, start, d);
    assert lv[..|lv|] == lv && lv[|lv|..] == [];
    var next := Level(g, start, d + 1);
    assert next[0..] == next && next[..0] == [];
  }

  /** Where the loop stands after expanding entry j of level d: the next entry, or the start of level d + 1. */
  lemma BfsMove(g: Graph, start: int, d: nat, j: nat, q: seq<(int, nat)>, expanded: seq<(int, nat)>)
      returns (d': nat, j': nat)
    requires j < |Level(g, start, d)|
    requires q == BfsQueue(g, start, d, j + 1) && expanded == BfsDone(g, start, d, j + 1)
    ensures j' <= |Level(g, start, d')| && (j' == |Level(g, start, d')| ==> j' == 0)
    ensures (d' == d && j' == j + 1) || (d' == d + 1 && j' == 0)
    ensures q == BfsQueue(g, start, d', j') && expanded == BfsDone(g, start, d', j')
  {
    if j + 1 == |Level(g, start, d)| {
      BfsNextLevel(g, start, d);
      d', j' := d + 1, 0;
    } else {
      d', j' := d, j + 1;
    }
  }

  /** One iteration of the bfs loop: pop the front entry; stop at depth `depth`, else expand it. */
  method BfsPop(g: Graph, start: int, depth: nat, q: seq<(int, nat)>, expanded: seq<(int, nat)>,
                ghost d: nat, ghost j: nat)
      returns (q': seq<(int, nat)>, expanded': seq<(int, nat)>, stop: bool, ghost d': nat, ghost j': nat)
    requires d <= depth && j < |Level(g, start, d)| && (d == depth ==> j == 0)
    requires q == BfsQueue(g, start, d, j) && expanded == BfsDone(g, start, d, j)
    ensures stop ==> d == depth && expanded' == expanded
    ensures !stop ==> d' <= depth && j' <= |Level(g, start, d')| && (j' == |Level(g, start, d')| ==> j' == 0)
    ensures !stop ==> (d' == d && j' == j + 1) || (d' == d + 1 && j' == 0)
    ensures !stop ==> (d' == depth ==> j' == 0)
    ensures !stop ==> q' == BfsQueue(g, start, d', j') && expanded' == BfsDone(g, start, d', j')
  {
    BfsAdvance(g, start, d, j);
    ghost var v := Level(g, start, d)[j];
    var p := q[0];
    assert p.0 == v && p.1 == d;
    q' := q[1..];
    if p.1 == depth {
      return q', expanded, true, d, j;
    }
    expanded' := expanded + [p];
    q' := q' + Tag(Out(g, p.0), p.1 + 1);
    d', j' := BfsMove(g, start, d, j, q', expanded');
    stop := false;
  }

  /** When the loop ends, by the depth test or on an empty queue, it has expanded every level below `depth`. */
  lemma BfsFinish(g: Graph, start: int, depth: nat, d: nat, j: nat, q: seq<(int, nat)>, stop: bool)
    requires d <= depth && j <= |Level(g, start, d)| && (j == |Level(g, start, d)| ==> j == 0)
    requires d == depth ==> j == 0
    requires q == BfsQueue(g, start, d, j)
    requires stop || |q| == 0
    requires stop ==> d == depth
    ensures BfsDone(g, start, d, j) == Upto(g, start, depth)
  {
    var lv := Level(g, start, d);
    assert lv[..0] == [];
    if d < depth {
      assert |lv[j..]| == 0;
      UptoStays(g, start, d, depth);
    }
  }

  /**
   * bfs(start, depth): the entries it pops and expands are exactly all walks
   * of fewer than `depth` steps, level by level; it stops at the first entry
   * of depth `depth` or when the queue runs dry.
   */
  method Bfs(g: Graph, start: int, depth: nat) returns (expanded: seq<(int, nat)>)
    ensures expanded == Upto(g, start, depth)
  {
    var q: seq<(int, nat)> := [(start, 0)];
    expanded := [];
    ghost var d: nat := 0;
    ghost var j: nat := 0;
    assert q == BfsQueue(g, start, 0, 0);
    var stop := false;
    while |q| > 0 && !stop
      invariant d <= depth && j <= |Level(g, start, d)|
      invariant j == |Level(g, start, d)| ==> j == 0
      invariant d == depth ==> j == 0
      invariant stop ==> d == depth
      invariant q == BfsQueue(g, start, d, j)
      invariant expanded == BfsDone(g, start, d, j)
      decreases !stop, depth - d, |Level(g, start, d)| - j
    {
      var q', expanded', stop', d', j' := BfsPop(g, start, depth, q, expanded, d, j);
      if stop' {
        stop := true;
      } else {
        q, expanded, d, j := q', expanded', d', j';
      }
    }
    BfsFinish(g, start, depth, d, j, q, stop);
  }

  /** What a bfs expands is every walk of fewer than `depth` steps, in non-decreasing depth. */
  lemma BfsExpandsShortWalks(g: Graph, start: int, depth: nat, v: int, k: nat)
    ensures (v, k) in Upto(g, start, depth) <==> k < depth && WalkTo(g, start, v, k)
  {
    UptoShape(g, start, depth);
    if k < depth && WalkTo(g, start, v, k) {
      LevelIsWalkEnds(g, start, k, v);
      UptoContains(g, start, depth, k, v);
    }
  }

  lemma {:induction false} UptoContains(g: Graph, start: int, n: nat, k: nat, v: int)
    requires k < n && v in Level(g, start, k)
    ensures (v, k) in Upto(g, start, n)
  {
    var lv := Level(g, start, k);
    if k == n - 1 {
      var i :| 0 <= i < |lv| && lv[i] == v;
      InTagged(Upto(g, start, n - 1), lv, k, i);
    } else {
      UptoContains(g, start, n - 1, k, v);
    }
  }

  lemma InTagged(p: seq<(int, nat)>, xs: seq<int>, d: nat, i: nat)
    requires i < |xs|
    ensures (xs[i], d) in p + Tag(xs, d)
  {
    assert (p + Tag(xs, d))[|p| + i] == (xs[i], d);
  }

  // ---------------------------------------------------------------------------
  // SSSP

  /** Level order as bare vertex ids: every vertex of depth below n. */
  function Stream(g: Graph, start: int, n: nat): seq<int>
  {
    if n == 0 then [] else Stream(g, start, n - 1) + Level(g, start, n - 1)
  }

  function SsspQueue(g: Graph, start: int, d: nat, j: nat): seq<int>
    requires j <= |Level(g, start, d)|
  {
    Level(g, start, d)[j..] + Expand(g, Level(g, start, d)[..j])
  }

  function SsspPopped(g: Graph, start: int, d: nat, j: nat): seq<int>
    requires j <= |Level(g, start, d)|
  {
    Stream(g, start, d) + Level(g, start, d)[..j]
  }

  lemma SeqPop(lv: seq<int>, e: seq<int>, o: seq<int>, j: nat)
    requires j < |lv|
    ensures (lv[j..] + e)[0] == lv[j]
    ensures (lv[j..] + e)[1..] + o == lv[j + 1..] + (e + o)
    ensures lv[..j] + [lv[j]] == lv[..j + 1]
  {
    assert lv[j..] == [lv[j]] + lv[j + 1..];
  }

  lemma SsspAdvance(g: Graph, start: int, d: nat, j: nat)
    requires j < |Level(g, start, d)|
    ensures var v := Level(g, start, d)[j];
      SsspQueue(g, start, d, j)[0] == v &&
      SsspQueue(g, start, d, j)[1..] + Out(g, v) == SsspQueue(g, start, d, j + 1) &&
      SsspPopped(g, start, d, j) + [v] == SsspPopped(g, start, d, j + 1)
  {
    var lv := Level(g, start, d);
    ExpandSnoc(g, lv, j);
    SeqPop(lv, Expand(g, lv[..j]), Out(g, lv[j]), j);
    assert Stream(g, start, d) + lv[..j] + [lv[j]] == Stream(g, start, d) + lv[..j + 1];
  }

  lemma SsspNextLevel(g: Graph, start: int, d: nat)
    ensures SsspQueue(g, start, d, |Level(g, start, d)|) == SsspQueue(g, start, d + 1, 0)
    ensures SsspPopped(g, start, d, |Level(g, start, d)|) == SsspPopped(g, start, d + 1, 0)
  {
    var lv := Level(g, start, d);
    assert lv[..|lv|] == lv && lv[|lv|..] == [];
    var next := Level(g, start, d + 1);
    assert next[0..] == next && next[..0] == [];
  }

  /** The queue runs dry exactly when the current level is empty. */
  lemma SsspQueueEmpty(g: Graph, start: int, d: nat, j: nat)
    requires j <= |Level(g, start, d)| && (j == |Level(g, start, d)| ==> j == 0)
    ensures SsspQueue(g, start, d, j) == [] <==> Level(g, start, d) == []
  {
    var lv := Level(g, start, d);
    if lv == [] {
      assert lv[j..] == [] && lv[..j] == [];
    } else {
      assert lv[j..][0] == lv[j];
    }
  }

  /** One iteration of the sssp loop up to the target test: pop the front id and move the position on. */
  method SsspPop(g: Graph, start: int, q: seq<int>, popped: seq<int>, ghost d: nat, ghost j: nat)
      returns (vid: int, rest: seq<int>, popped': seq<int>, ghost d': nat, ghost j': nat)
    requires j <= |Level(g, start, d)| && (j == |Level(g, start, d)| ==> j == 0)
    requires q == SsspQueue(g, start, d, j) && popped == SsspPopped(g, start, d, j) && |q| > 0
    ensures vid == q[0] && rest == q[1..] && popped' == popped + [vid]
    ensures j' <= |Level(g, start, d')| && (j' == |Level(g, start, d')| ==> j' == 0)
    ensures rest + Out(g, vid) == SsspQueue(g, start, d', j') && popped' == SsspPopped(g, start, d', j')
  {
    SsspQueueEmpty(g, start, d, j);
    SsspAdvance(g, start, d, j);
    vid := q[0];
    assert vid == Level(g, start, d)[j];
    rest := q[1..];
    popped' := popped + [vid];
    d', j' := d, j + 1;
    if j' == |Level(g, start, d)| {
      SsspNextLevel(g, start, d);
      d', j' := d + 1, 0;
    }
  }

  datatype Outcome = Found | Exhausted | OutOfFuel

  /**
   * sssp(start, end), allowed at most `fuel` pops. The popped ids are a prefix
   * of the level-order stream, ending at the first `end` if it was found; when
   * the queue ran dry every walk from `start` has been followed.
   */
  method Sssp(g: Graph, start: int, end: int, fuel: nat)
      returns (popped: seq<int>, outcome: Outcome, ghost d: nat, ghost j: nat)
    ensures j <= |Level(g, start, d)| && popped == SsspPopped(g, start, d, j)
    ensures outcome == Found <==> end in popped
    ensures outcome == Found ==> popped[|popped| - 1] == end && end !in popped[..|popped| - 1]
    ensures outcome == Exhausted ==> Level(g, start, d) == [] && j == 0
    ensures outcome == OutOfFuel ==> |popped| == fuel
  {
    var q := [start];
    popped := [];
    d, j := 0, 0;
    assert q == SsspQueue(g, start, 0, 0);
    var n := 0;
    while n < fuel
      invariant n <= fuel && |popped| == n
      invariant j <= |Level(g, start, d)|
      invariant j == |Level(g, start, d)| ==> j == 0
      invariant q == SsspQueue(g, start, d, j)
      invariant popped == SsspPopped(g, start, d, j)
      invariant end !in popped
    {
      if |q| == 0 {
        SsspQueueEmpty(g, start, d, j);
        return popped, Exhausted, d, j;
      }
      var vid, rest;
      ghost var before := popped;
      vid, rest, popped, d, j := SsspPop(g, start, q, popped, d, j);
      if vid == end {
        assert popped[..|popped| - 1] == before;
        return popped, Found, d, j;
      }
      q := rest + Out(g, vid);
      n := n + 1;
    }
    outcome := OutOfFuel;
  }

  /** A run that found `end` reached it by a walk; one that ran dry shows `end` is unreachable. */
  lemma {:induction false} StreamHoldsLevels(g: Graph, start: int, d: nat, k: nat, v: int)
    requires k < d && v in Level(g, start, k)
    ensures v in Stream(g, start, d)
  {
    InConcat(Stream(g, start, d - 1), Level(g, start, d - 1), v);
    if k < d - 1 {
      StreamHoldsLevels(g, start, d - 1, k, v);
    }
  }

  lemma {:induction false} StreamIsReachable(g: Graph, start: int, d: nat, v: int)
    requires v in Stream(g, start, d)
    ensures exists k: nat :: k < d && WalkTo(g, start, v, k)
  {
    if v in Level(g, start, d - 1) {
      LevelIsWalkEnds(g, start, d - 1, v);
    } else {
      StreamIsReachable(g, start, d - 1, v);
    }
  }

  /** When the queue ran dry without `end`, no walk from `start` leads to it. */
  lemma ExhaustedMeansUnreachable(g: Graph, start: int, end: int, d: nat)
    requires Level(g, start, d) == [] && end !in Stream(g, start, d)
    ensures forall k: nat :: !WalkTo(g, start, end, k)
  {
    forall k: nat ensures !WalkTo(g, start, end, k) {
      LevelIsWalkEnds(g, start, k, end);
      if k >= d {
        EmptyLevelStays(g, start, d, k);
      } else if end in Level(g, start, k) {
        StreamHoldsLevels(g, start, d, k, end);
      }
    }
  }

  /** When `end` was popped, some walk from `start` leads to it. */
  lemma FoundMeansReachable(g: Graph, start: int, end: int, d: nat, j: nat)
    requires j <= |Level(g, start, d)| && end in SsspPopped(g, start, d, j)
    ensures exists k: nat :: WalkTo(g, start, end, k)
  {
    var lv := Level(g, start, d);
    if end in lv[..j] {
      LevelIsWalkEnds(g, start, d, end);
    } else {
      StreamIsReachable(g, start, d, end);
    }
  }
}
