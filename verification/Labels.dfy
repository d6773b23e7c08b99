/**
 The label-correcting argument behind the shortest-path search.  The search pops the queue entry with the
 largest label first, so a popped node is not settled: its label may be lowered again later.  What
 holds throughout is that every finite label is the cost of a simple path, that every edge still to be relaxed
 starts at a node whose current label is in the queue, and that lowering a label removes at least one path
 from the finite set of simple paths cheaper than the label of their end.
 */
module Labels {
  import opened Graphs

  /** A queue entry: a node with the label it had when it was queued. */
  datatype Route = Route(node: nat, distance: real)

  ghost predicate Shaped(m: Matrix, s: nat, dist: seq<Weight>) {
    WellFormed(m) && |dist| == |m| && s < |m|
  }

  /** Every node of `p` is labelled with at most the cost of reaching it along `p`. */
  ghost predicate Dominated(m: Matrix, dist: seq<Weight>, p: Path)
    requires Square(m) && |dist| == |m| && IsWalk(m, p)
  {
    && Last(p) < |m|
    && dist[Last(p)].Fin? && dist[Last(p)].value <= Cost(m, p)
    && (|p| > 1 ==> Dominated(m, dist, p[..|p| - 1]))
  }

  ghost predicate Witness(m: Matrix, s: nat, dist: seq<Weight>, v: nat, p: Path)
    requires Shaped(m, s, dist) && v < |m|
  {
    && SimplePath(m, s, v, p)
    && dist[v] == Fin(Cost(m, p))
    && Dominated(m, dist, p)
  }

  /** Every finite label is the cost of a simple path from `s`, recorded in `wit`. */
  ghost predicate Labelled(m: Matrix, s: nat, dist: seq<Weight>, wit: seq<Path>)
    requires Shaped(m, s, dist)
  {
    && |wit| == |m|
    && dist[s] == Fin(0.0)
    && (forall v :: 0 <= v < |m| && dist[v].Fin? ==> Witness(m, s, dist, v, wit[v]))
  }

  /** The edge from `u` to `v` still lowers the label of `v`. */
  ghost predicate Tense(m: Matrix, dist: seq<Weight>, u: nat, v: nat)
    requires Square(m) && |dist| == |m|
  {
    Edge(m, u, v) && dist[u].Fin? && Less(Fin(dist[u].value + m[u][v].value), dist[v])
  }

  /**
   Every tense edge starts at a node queued with its current label, except for the edges from
   `u` to `k` and above, which are about to be relaxed.
   */
  ghost predicate Queued(m: Matrix, dist: seq<Weight>, pq: seq<Route>, u: nat, k: nat)
    requires Square(m) && |dist| == |m|
  {
    && (forall r :: r in pq ==> r.node < |m| && dist[r.node].Fin? && dist[r.node].value <= r.distance)
    && (forall a: nat, b: nat :: Tense(m, dist, a, b) && !(a == u && b >= k) ==> Route(a, dist[a].value) in pq)
  }

  /** Following `prev` from a reached node leads to the node its label came from. */
  ghost predicate PrevLinks(m: Matrix, s: nat, dist: seq<Weight>, prev: seq<int>)
    requires Shaped(m, s, dist)
  {
    && |prev| == |m|
    && (forall v :: 0 <= v < |m| ==> (prev[v] == -1 <==> v == s || dist[v].Inf?))
    && (forall v :: 0 <= v < |m| && prev[v] != -1 ==>
          && 0 <= prev[v] < |m|
          && Edge(m, prev[v], v)
          && dist[v].Fin? && dist[prev[v]].Fin?
          && dist[prev[v]].value + m[prev[v]][v].value <= dist[v].value)
  }

  /** The simple paths from `s` that are still cheaper than the label of their last node. */
  ghost function Cheaper(m: Matrix, s: nat, dist: seq<Weight>): set<Path>
    requires Shaped(m, s, dist)
  {
    set p | p in Words(|m|, |m|) && CheaperPath(m, s, dist, p)
  }

  ghost predicate CheaperPath(m: Matrix, s: nat, dist: seq<Weight>, p: Path)
    requires Shaped(m, s, dist)
  {
    && IsWalk(m, p) && Simple(p) && p[0] == s
    && Last(p) < |m| && Less(Fin(Cost(m, p)), dist[Last(p)])
  }

  lemma InitialLabels(m: Matrix, s: nat, dist: seq<Weight>, wit: seq<Path>)
    requires Shaped(m, s, dist) && |wit| == |m|
    requires dist[s] == Fin(0.0) && forall v :: 0 <= v < |m| && v != s ==> dist[v].Inf?
    requires wit[s] == [s]
    ensures Labelled(m, s, dist, wit)
  {
    assert Dominated(m, dist, wit[s]);
  }

  lemma {:induction false} DominatedNodes(m: Matrix, dist: seq<Weight>, p: Path, i: nat)
    requires WellFormed(m) && |dist| == |m| && IsWalk(m, p) && Dominated(m, dist, p) && i < |p|
    ensures p[i] < |m| && dist[p[i]].Fin? && dist[p[i]].value <= Cost(m, p)
  {
    if i < |p| - 1 {
      DominatedNodes(m, dist, p[..|p| - 1], i);
      PrefixCost(m, p, |p| - 1);
    }
  }

  lemma {:induction false} LoweringKeepsDomination(m: Matrix, dist: seq<Weight>, p: Path, v: nat, d: real)
    requires Square(m) && |dist| == |m| && IsWalk(m, p) && Dominated(m, dist, p)
    requires v < |m| && Less(Fin(d), dist[v])
    ensures Dominated(m, dist[v := Fin(d)], p)
  {
    if |p| > 1 {
      LoweringKeepsDomination(m, dist, p[..|p| - 1], v, d);
    }
  }

  /** A node on the witness of `u` cannot be improved by an edge from `u`. */
  lemma NotOnWitness(m: Matrix, dist: seq<Weight>, u: nat, v: nat, p: Path)
    requires WellFormed(m) && |dist| == |m| && Tense(m, dist, u, v)
    requires IsWalk(m, p) && Dominated(m, dist, p) && dist[u] == Fin(Cost(m, p))
    ensures v !in p
  {
    forall i | 0 <= i < |p|
      ensures p[i] != v
    {
      DominatedNodes(m, dist, p, i);
    }
  }

  /** The witness of `u`, extended by `v`, witnesses the lowered label of `v`. */
  lemma NewWitness(m: Matrix, s: nat, dist: seq<Weight>, u: nat, v: nat, p: Path)
    requires Shaped(m, s, dist) && Tense(m, dist, u, v)
    requires Witness(m, s, dist, u, p)
    ensures Witness(m, s, dist[v := Fin(dist[u].value + m[u][v].value)], v, p + [v])
  {
    var d := dist[u].value + m[u][v].value;
    NotOnWitness(m, dist, u, v, p);
    ExtendWalk(m, p, v);
    LoweringKeepsDomination(m, dist, p, v, d);
    assert (p + [v])[..|p|] == p;
  }

  /** Relaxing a tense edge keeps every label the cost of a simple path. */
  lemma RelaxLabels(m: Matrix, s: nat, dist: seq<Weight>, wit: seq<Path>, u: nat, v: nat)
    requires Shaped(m, s, dist) && Labelled(m, s, dist, wit)
    requires Tense(m, dist, u, v)
    ensures u != v && v != s
    ensures Labelled(m, s, dist[v := Fin(dist[u].value + m[u][v].value)], wit[v := wit[u] + [v]])
  {
    var d := dist[u].value + m[u][v].value;
    var dist', wit' := dist[v := Fin(d)], wit[v := wit[u] + [v]];
    assert Witness(m, s, dist, u, wit[u]);
    NotOnWitness(m, dist, u, v, wit[u]);
    assert wit[u][|wit[u]| - 1] == u && wit[u][0] == s;
    forall x | 0 <= x < |m| && dist'[x].Fin?
      ensures Witness(m, s, dist', x, wit'[x])
    {
      if x == v {
        NewWitness(m, s, dist, u, v, wit[u]);
      } else {
        assert Witness(m, s, dist, x, wit[x]);
        LoweringKeepsDomination(m, dist, wit[x], v, d);
      }
    }
  }

  /** Relaxing a tense edge strictly shrinks the set of cheaper simple paths: the search terminates. */
  lemma RelaxShrinks(m: Matrix, s: nat, dist: seq<Weight>, wit: seq<Path>, u: nat, v: nat)
    requires Shaped(m, s, dist) && Labelled(m, s, dist, wit)
    requires Tense(m, dist, u, v)
    ensures Cheaper(m, s, dist[v := Fin(dist[u].value + m[u][v].value)]) < Cheaper(m, s, dist)
  {
    var dist' := dist[v := Fin(dist[u].value + m[u][v].value)];
    assert Witness(m, s, dist, u, wit[u]);
    NewWitness(m, s, dist, u, v, wit[u]);
    var p := wit[u] + [v];
    SimplePathInWords(m, s, v, p);
    assert CheaperPath(m, s, dist, p) && !CheaperPath(m, s, dist', p);
    forall q | q in Cheaper(m, s, dist')
      ensures q in Cheaper(m, s, dist)
    {
      assert CheaperPath(m, s, dist', q);
    }
    assert p in Cheaper(m, s, dist) && p !in Cheaper(m, s, dist');
  }

  /** Relaxing the edge to `k` and queueing `k` leaves only the edges above `k` unqueued. */
  lemma RelaxQueue(m: Matrix, s: nat, dist: seq<Weight>, pq: seq<Route>, u: nat, k: nat)
    requires Shaped(m, s, dist) && u < |m| && k < |m|
    requires Queued(m, dist, pq, u, k)
    requires u != k && Tense(m, dist, u, k)
    ensures var d := dist[u].value + m[u][k].value;
            Queued(m, dist[k := Fin(d)], pq + [Route(k, d)], u, k + 1)
  {
    var d := dist[u].value + m[u][k].value;
    var dist', pq' := dist[k := Fin(d)], pq + [Route(k, d)];
    forall r | r in pq'
      ensures r.node < |m| && dist'[r.node].Fin? && dist'[r.node].value <= r.distance
    {
      if r !in pq {
        assert r == Route(k, d);
      }
    }
    forall a: nat, b: nat | Tense(m, dist', a, b) && !(a == u && b >= k + 1)
      ensures Route(a, dist'[a].value) in pq'
    {
      if a == k {
        assert pq'[|pq|] == Route(k, d);
      } else {
        assert Tense(m, dist, a, b);
        if a == u && b == k {
          assert false;
        }
      }
    }
  }

  lemma RelaxPrev(m: Matrix, s: nat, dist: seq<Weight>, prev: seq<int>, u: nat, v: nat)
    requires Shaped(m, s, dist) && PrevLinks(m, s, dist, prev)
    requires u != v && v != s && Tense(m, dist, u, v)
    ensures PrevLinks(m, s, dist[v := Fin(dist[u].value + m[u][v].value)], prev[v := u])
  {
  }

  /** The invariant of the search, while the edges from `u` to `k` and above are still to be relaxed. */
  ghost predicate Searching(m: Matrix, s: nat, dist: seq<Weight>, prev: seq<int>, wit: seq<Path>, pq: seq<Route>,
                            u: nat, k: nat)
  {
    && Shaped(m, s, dist)
    && Labelled(m, s, dist, wit)
    && PrevLinks(m, s, dist, prev)
    && Queued(m, dist, pq, u, k)
  }

  lemma StartSearch(m: Matrix, s: nat, dist: seq<Weight>, prev: seq<int>, wit: seq<Path>)
    requires Shaped(m, s, dist) && |wit| == |m| && |prev| == |m|
    requires dist[s] == Fin(0.0) && forall v :: 0 <= v < |m| && v != s ==> dist[v].Inf?
    requires forall v :: 0 <= v < |m| ==> prev[v] == -1
    requires wit[s] == [s]
    ensures Searching(m, s, dist, prev, wit, [Route(s, 0.0)], s, |m|)
  {
    InitialLabels(m, s, dist, wit);
    assert [Route(s, 0.0)][0] == Route(s, 0.0);
  }

  /** Popping an outdated entry, or the entry of the node whose edges are relaxed next, keeps the invariant. */
  lemma PopSearch(m: Matrix, s: nat, dist: seq<Weight>, prev: seq<int>, wit: seq<Path>,
                  pq: seq<Route>, top: Route, rest: seq<Route>, u: nat)
    requires Searching(m, s, dist, prev, wit, pq, u, |m|)
    requires top in pq && forall x :: x in pq ==> x == top || x in rest
    requires forall x :: x in rest ==> x in pq
    ensures top.node < |m| && dist[top.node].Fin?
    ensures Searching(m, s, dist, prev, wit, rest, top.node,
                      if Less(dist[top.node], Fin(top.distance)) then |m| else 0)
  {
    var k := if Less(dist[top.node], Fin(top.distance)) then |m| else 0;
    forall a: nat, b: nat | Tense(m, dist, a, b) && !(a == top.node && b >= k)
      ensures Route(a, dist[a].value) in rest
    {
      assert Route(a, dist[a].value) in pq;
    }
  }

  /** One round of the inner loop, when the edge from `u` to `k` lowers the label of `k`. */
  lemma RelaxSearch(m: Matrix, s: nat, dist: seq<Weight>, prev: seq<int>, wit: seq<Path>, pq: seq<Route>, u: nat,
                    k: nat)
    requires Searching(m, s, dist, prev, wit, pq, u, k)
    requires k < |m| && Tense(m, dist, u, k)
    ensures var d := dist[u].value + m[u][k].value;
            && Searching(m, s, dist[k := Fin(d)], prev[k := u], wit[k := wit[u] + [k]], pq + [Route(k, d)], u, k + 1)
            && Cheaper(m, s, dist[k := Fin(d)]) < Cheaper(m, s, dist)
    ensures u != k
  {
    RelaxLabels(m, s, dist, wit, u, k);
    RelaxShrinks(m, s, dist, wit, u, k);
    RelaxQueue(m, s, dist, pq, u, k);
    RelaxPrev(m, s, dist, prev, u, k);
  }

  lemma SkipSearch(m: Matrix, s: nat, dist: seq<Weight>, prev: seq<int>, wit: seq<Path>, pq: seq<Route>, u: nat, k: nat)
    requires Searching(m, s, dist, prev, wit, pq, u, k)
    requires k < |m| && !Tense(m, dist, u, k)
    ensures Searching(m, s, dist, prev, wit, pq, u, k + 1)
  {
    forall a: nat, b: nat | Tense(m, dist, a, b) && !(a == u && b >= k + 1)
      ensures Route(a, dist[a].value) in pq
    {
    }
  }

  /** No edge is tense any more. */
  ghost predicate Relaxed(m: Matrix, dist: seq<Weight>)
    requires Square(m) && |dist| == |m|
  {
    forall u, v :: Edge(m, u, v) ==> !Tense(m, dist, u, v)
  }

  lemma {:induction false} RelaxedBelowWalks(m: Matrix, s: nat, dist: seq<Weight>, p: Path)
    requires Shaped(m, s, dist) && dist[s] == Fin(0.0) && Relaxed(m, dist)
    requires IsWalk(m, p) && p[0] == s
    ensures Last(p) < |m| && dist[Last(p)].Fin? && dist[Last(p)].value <= Cost(m, p)
    decreases |p|
  {
    if |p| > 1 {
      var q := p[..|p| - 1];
      RelaxedBelowWalks(m, s, dist, q);
      assert Edge(m, Last(q), Last(p));
      assert !Tense(m, dist, Last(q), Last(p));
    }
  }

  /** `dist[v]` is the least cost of all walks from `s` to `v`, and infinite exactly if there is none. */
  ghost predicate Optimal(m: Matrix, s: nat, dist: seq<Weight>)
    requires Square(m) && |dist| == |m|
  {
    forall v :: 0 <= v < |m| ==> OptimalAt(m, s, v, dist[v])
  }

  ghost predicate OptimalAt(m: Matrix, s: nat, v: nat, d: Weight)
    requires Square(m)
  {
    && (d.Inf? ==> forall q :: !WalkFromTo(m, s, v, q))
    && (d.Fin? ==> exists p :: SimplePath(m, s, v, p) && ShortestPath(m, s, v, p) && Cost(m, p) == d.value)
  }

  /** When the queue is empty, the labels are the shortest distances. */
  lemma EmptyQueueOptimal(m: Matrix, s: nat, dist: seq<Weight>, wit: seq<Path>, u: nat)
    requires Shaped(m, s, dist) && Labelled(m, s, dist, wit)
    requires Queued(m, dist, [], u, |m|)
    ensures Relaxed(m, dist)
    ensures Optimal(m, s, dist)
  {
    forall v | 0 <= v < |m|
      ensures OptimalAt(m, s, v, dist[v])
    {
      forall q | WalkFromTo(m, s, v, q)
        ensures dist[v].Fin? && dist[v].value <= Cost(m, q)
      {
        RelaxedBelowWalks(m, s, dist, q);
      }
      if dist[v].Fin? {
        assert Witness(m, s, dist, v, wit[v]);
        assert ShortestPath(m, s, v, wit[v]);
      }
    }
  }

  /** At the end every `prev` link is an edge on a shortest path: the inequality has become an equality. */
  lemma PrevLinksTight(m: Matrix, s: nat, dist: seq<Weight>, prev: seq<int>, v: nat)
    requires Shaped(m, s, dist) && PrevLinks(m, s, dist, prev) && Relaxed(m, dist)
    requires v < |m| && prev[v] != -1
    ensures dist[v] == Fin(dist[prev[v]].value + m[prev[v]][v].value)
    ensures dist[prev[v]].value < dist[v].value
  {
    assert Edge(m, prev[v], v);
    assert !Tense(m, dist, prev[v], v);
  }

  // ---------- Rebuilding a path from the prev links ----------

  /** The state of the reconstruction loop: `path` is the part of the path already found, ending at `end`. */
  ghost predicate Rebuilding(m: Matrix, s: nat, end: nat, dist: seq<Weight>, prev: seq<int>, curr: int, path: Path)
    requires Shaped(m, s, dist) && PrevLinks(m, s, dist, prev) && end < |m|
  {
    && -1 <= curr < |m|
    && (curr != -1 ==> dist[curr].Fin?)
    && dist[end].Fin?
    && if path == [] then curr == end else
         && IsWalk(m, path) && Last(path) == end && curr == prev[path[0]]
         && (forall i :: 0 <= i < |path| ==> path[i] < |m| && dist[path[i]].Fin?)
         && (forall i, j :: 0 <= i < j < |path| ==> dist[path[i]].value < dist[path[j]].value)
         && dist[path[0]].value + Cost(m, path) == dist[end].value
  }

  /** The nodes with a smaller label than `curr`; this set shrinks as the links are followed. */
  ghost function Below(dist: seq<Weight>, curr: int): set<nat>
  {
    if 0 <= curr < |dist| && dist[curr].Fin? then
      set v | v in Nodes(|dist|) && Less(dist[v], dist[curr])
    else {}
  }

  lemma FollowPrev(m: Matrix, s: nat, end: nat, dist: seq<Weight>, prev: seq<int>, curr: nat, path: Path)
    requires Shaped(m, s, dist) && PrevLinks(m, s, dist, prev) && Relaxed(m, dist) && end < |m|
    requires Rebuilding(m, s, end, dist, prev, curr, path)
    ensures Rebuilding(m, s, end, dist, prev, prev[curr], [curr] + path)
  {
    hide Relaxed;
    if path != [] {
      PrevLinksTight(m, s, dist, prev, path[0]);
      PrependWalk(m, curr, path);
      LabelsRise(dist, curr, path);
    }
  }

  lemma LabelsRise(dist: seq<Weight>, curr: nat, path: Path)
    requires forall i :: 0 <= i < |path| ==> path[i] < |dist| && dist[path[i]].Fin?
    requires forall i, j :: 0 <= i < j < |path| ==> dist[path[i]].value < dist[path[j]].value
    requires path != [] && curr < |dist| && dist[curr].Fin? && dist[curr].value < dist[path[0]].value
    ensures var path' := [curr] + path;
            && (forall i :: 0 <= i < |path'| ==> path'[i] < |dist| && dist[path'[i]].Fin?)
            && (forall i, j :: 0 <= i < j < |path'| ==> dist[path'[i]].value < dist[path'[j]].value)
  {
  }

  /** Along the links the set of smaller labels shrinks. */
  lemma LinkFalls(m: Matrix, s: nat, dist: seq<Weight>, prev: seq<int>, curr: nat)
    requires Shaped(m, s, dist) && PrevLinks(m, s, dist, prev) && Relaxed(m, dist)
    requires curr < |m| && prev[curr] != -1
    ensures Below(dist, prev[curr]) < Below(dist, curr)
  {
    PrevLinksTight(m, s, dist, prev, curr);
    var p := prev[curr] as nat;
    assert p in Below(dist, curr) && p !in Below(dist, p);
  }

  lemma RebuiltIsShortest(m: Matrix, s: nat, end: nat, dist: seq<Weight>, prev: seq<int>, path: Path)
    requires Shaped(m, s, dist) && PrevLinks(m, s, dist, prev) && Optimal(m, s, dist) && end < |m|
    requires dist[s] == Fin(0.0)
    requires Rebuilding(m, s, end, dist, prev, -1, path)
    ensures SimplePath(m, s, end, path) && ShortestPath(m, s, end, path)
    ensures dist[end] == Fin(Cost(m, path))
  {
    assert OptimalAt(m, s, end, dist[end]);
  }
}
