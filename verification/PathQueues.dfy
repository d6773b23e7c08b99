/** The queues and result lists of the two path searches, and what they mean for the enumeration behind them. */
module PathQueues {
  import opened Graphs
  import opened Enumeration
  import opened ContainerHeap

  datatype PathResult = PathResult(path: Path, distance: real)

  ghost function Item(q: Search, p: Path): PathResult
    requires Ready(q) && InTree(q, p)
  {
    PathResult(p, Rank(q, p))
  }

  /** The queue holds every open path once, with its distance. */
  ghost predicate Queue(q: Search, pq: seq<PathResult>, open: set<Path>)
    requires Ready(q) && forall p :: p in open ==> InTree(q, p)
  {
    && (forall x :: x in pq ==> x.path in open && x == Item(q, x.path))
    && (forall p :: p in open ==> Item(q, p) in pq)
    && NoDuplicates(pq)
  }

  lemma PopQueue(q: Search, pq: seq<PathResult>, open: set<Path>, top: PathResult, rest: seq<PathResult>)
    requires Ready(q) && (forall p :: p in open ==> InTree(q, p)) && Queue(q, pq, open)
    requires top in pq && multiset(pq) == multiset(rest) + multiset{top}
    requires forall x :: x in rest ==> x in pq
    requires forall x :: x in pq ==> x == top || x in rest
    ensures Queue(q, rest, open - {top.path})
  {
    PopDistinct(pq, top, rest);
  }

  lemma PushQueue(q: Search, pq: seq<PathResult>, open: set<Path>, p: Path)
    requires Ready(q) && (forall x :: x in open ==> InTree(q, x)) && Queue(q, pq, open)
    requires InTree(q, p) && p !in open
    ensures Queue(q, pq + [Item(q, p)], open + {p})
  {
    PushDistinct(pq, Item(q, p));
    assert (pq + [Item(q, p)])[|pq|] == Item(q, p);
  }

  /** The child of `cur` along `k` has not been seen: it is queued with its distance. */
  lemma QueueChild(q: Search, done: set<Path>, open: set<Path>, cur: Path, k: nat, pq: seq<PathResult>, seen: set<Path>)
    requires State(q, done, open, cur, k) && Queue(q, pq, open)
    requires q.SimplePaths? && cur in done && !Goal(q, cur) && Step(q, cur, k)
    requires seen + {[q.start]} == done + open && cur + [k] !in seen
    ensures var p := cur + [k];
            var d := Rank(q, cur) + q.m[Last(cur)][k].value;
            && State(q, done, open + {p}, cur, k + 1)
            && Queue(q, pq + [PathResult(p, d)], open + {p})
            && seen + {p} + {[q.start]} == done + (open + {p})
  {
    var p := cur + [k];
    PushState(q, done, open, cur, k);
    TreeShape(q, cur);
    ExtendWalk(q.m, cur, k);
    PushQueue(q, pq, open, p);
  }

  lemma ChildSeen(q: Search, done: set<Path>, open: set<Path>, cur: Path, k: nat, seen: set<Path>)
    requires State(q, done, open, cur, k)
    requires cur in done && !Goal(q, cur) && Step(q, cur, k)
    requires seen + {[q.start]} == done + open && cur + [k] in seen
    ensures State(q, done, open, cur, k + 1)
  {
    PushState(q, done, open, cur, k);
    var p := cur + [k];
    assert p in done + open;
    assert p in open ==> open + {p} == open;
  }

  /** The list holds every popped goal, each once and in order of distance. */
  ghost predicate Collected(q: Search, done: set<Path>, results: seq<PathResult>)
    requires Ready(q) && forall p :: p in done ==> InTree(q, p)
  {
    && (forall x :: x in results ==> x.path in done && Goal(q, x.path) && x == Item(q, x.path))
    && (forall p :: p in done && Goal(q, p) ==> Item(q, p) in results)
    && (forall i, j :: 0 <= i < j < |results| ==>
          results[i].path != results[j].path && results[i].distance <= results[j].distance)
  }

  lemma CollectGoal(q: Search, done: set<Path>, open: set<Path>, cur: Path, results: seq<PathResult>, next: Path)
    requires State(q, done, open, cur, |q.m|) && Collected(q, done, results)
    requires next in open && Goal(q, next)
    ensures Collected(q, done + {next}, results + [Item(q, next)])
  {
    var results' := results + [Item(q, next)];
    forall i, j | 0 <= i < j < |results'|
      ensures results'[i].path != results'[j].path && results'[i].distance <= results'[j].distance
    {
      assert results'[i] in results;
    }
    assert results'[|results|] == Item(q, next);
  }

  /**
   The first `n` simple paths from `s` to `t` in order of cost: simple paths with their costs, each once and in
   order; and a simple path is missing only if there are `n` that cost no more.
   */
  ghost predicate TopN(m: Matrix, s: nat, t: nat, n: nat, results: seq<PathResult>)
    requires Square(m)
  {
    && (forall i :: 0 <= i < |results| ==>
          SimplePath(m, s, t, results[i].path) && results[i].distance == Cost(m, results[i].path))
    && (forall i, j :: 0 <= i < j < |results| ==>
          results[i].path != results[j].path && results[i].distance <= results[j].distance)
    && |results| <= n
    && (forall p :: SimplePath(m, s, t, p) && (forall i :: 0 <= i < |results| ==> results[i].path != p) ==>
          |results| == n && forall i :: 0 <= i < |results| ==> results[i].distance <= Cost(m, p))
  }

  lemma CollectedIsTopN(q: Search, done: set<Path>, open: set<Path>, cur: Path, n: nat, results: seq<PathResult>)
    requires q.SimplePaths? && State(q, done, open, cur, |q.m|) && Collected(q, done, results)
    requires |results| <= n && (open == {} || |results| == n)
    ensures TopN(q.m, q.start, q.end, n, results)
  {
    forall i | 0 <= i < |results|
      ensures SimplePath(q.m, q.start, q.end, results[i].path) && results[i].distance == Cost(q.m, results[i].path)
    {
      assert results[i] in results;
      SimpleGoals(q.m, q.start, q.end, results[i].path);
    }
    forall p | SimplePath(q.m, q.start, q.end, p) && forall i :: 0 <= i < |results| ==> results[i].path != p
      ensures |results| == n && forall i :: 0 <= i < |results| ==> results[i].distance <= Cost(q.m, p)
    {
      SimpleGoals(q.m, q.start, q.end, p);
      assert p in done ==> Item(q, p) in results;
      NothingLighterLeft(q, done, open, cur, p);
      forall i | 0 <= i < |results|
        ensures results[i].distance <= Cost(q.m, p)
      {
        assert results[i] in results;
      }
    }
  }

  // ---------- Consequences of TopN ----------

  ghost function AllSimplePaths(m: Matrix, s: nat, t: nat): set<Path>
    requires Square(m)
  {
    set p | p in Words(|m|, |m|) && SimplePath(m, s, t, p)
  }

  lemma DistinctPathsCount(results: seq<PathResult>)
    requires forall i, j :: 0 <= i < j < |results| ==> results[i].path != results[j].path
    ensures |set i | 0 <= i < |results| :: results[i].path| == |results|
  {
    if |results| > 0 {
      var init := results[..|results| - 1];
      DistinctPathsCount(init);
      var a, b := (set i | 0 <= i < |results| :: results[i].path), set i | 0 <= i < |init| :: init[i].path;
      assert a == b + {results[|results| - 1].path};
    }
  }

  /** The number of results is the smaller of `n` and the number of simple paths. */
  lemma TopNCount(m: Matrix, s: nat, t: nat, n: nat, results: seq<PathResult>)
    requires Square(m) && TopN(m, s, t, n, results)
    ensures |results| == if n <= |AllSimplePaths(m, s, t)| then n else |AllSimplePaths(m, s, t)|
  {
    var all, found := AllSimplePaths(m, s, t), set i | 0 <= i < |results| :: results[i].path;
    DistinctPathsCount(results);
    forall p | p in found
      ensures p in all
    {
      SimplePathInWords(m, s, t, p);
    }
    SubsetCount(found, all);
    if |results| < n {
      SubsetCount(all, found);
    }
  }

  /** The first result is as short as any walk: it agrees with a shortest path, however that was found. */
  lemma TopNFirst(m: Matrix, s: nat, t: nat, n: nat, results: seq<PathResult>, p: Path)
    requires Square(m) && TopN(m, s, t, n, results) && n > 0
    requires SimplePath(m, s, t, p) && ShortestPath(m, s, t, p)
    ensures |results| > 0 && results[0].distance == Cost(m, p)
    ensures ShortestPath(m, s, t, results[0].path)
  {
    if i :| 0 <= i < |results| && results[i].path == p {
      assert results[0].distance <= results[i].distance;
    }
    assert WalkFromTo(m, s, t, results[0].path);
  }
}
