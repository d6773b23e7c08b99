/** The graph of the finder package and the searches on it. */
module Finder {
  import opened Wrappers
  import opened Graphs
  import opened Labels
  import opened PriorityQueues
  import opened Enumeration
  import opened PathQueues
  import opened CycleQueues
  import ContainerHeap

  datatype FindError = NoPath | NotPositive | InvalidNodes | NoSuchEdge

  predicate Usable(c: Option<Weight>) {
    c.Some? && c.value.Fin? && c.value.value != 0.0
  }

  /** `i` is the last of the first `k` paths between its two nodes. */
  predicate LastOf(paths: seq<(nat, nat)>, k: nat, i: nat) {
    i < k <= |paths| && forall j :: i < j < k ==> paths[j] != paths[i]
  }

  /** The edges are the first `k` paths, each with the cost of its last occurrence. */
  ghost predicate Loaded(m: Matrix, paths: seq<(nat, nat)>, costs: seq<Option<Weight>>, k: nat)
    requires k <= |paths| == |costs|
  {
    && Square(m)
    && (forall i :: 0 <= i < |paths| ==> paths[i].0 < |m| && paths[i].1 < |m|)
    && (forall u: nat, v: nat :: Edge(m, u, v) <==> (u, v) in paths[..k])
    && (forall i: nat :: LastOf(paths, k, i) ==> costs[i] == Some(m[paths[i].0][paths[i].1]))
  }

  lemma NothingLoaded(m: Matrix, paths: seq<(nat, nat)>, costs: seq<Option<Weight>>)
    requires Square(m) && |costs| == |paths|
    requires forall i :: 0 <= i < |paths| ==> paths[i].0 < |m| && paths[i].1 < |m|
    requires forall u, v :: 0 <= u < |m| && 0 <= v < |m| ==> m[u][v] == Inf
    ensures Loaded(m, paths, costs, 0)
  {
  }

  lemma LoadOne(m: Matrix, paths: seq<(nat, nat)>, costs: seq<Option<Weight>>, k: nat)
    requires k < |paths| == |costs| && Loaded(m, paths, costs, k)
    requires Usable(costs[k])
    ensures Loaded(m[paths[k].0 := m[paths[k].0][paths[k].1 := costs[k].value]], paths, costs, k + 1)
  {
    var (u, v) := paths[k];
    var m' := m[u := m[u][v := costs[k].value]];
    assert paths[..k + 1] == paths[..k] + [(u, v)];
    forall a: nat, b: nat
      ensures Edge(m', a, b) <==> (a, b) in paths[..k + 1]
    {
      assert Edge(m', a, b) <==> Edge(m, a, b) || (a, b) == (u, v);
    }
    forall i: nat | LastOf(paths, k + 1, i)
      ensures costs[i] == Some(m'[paths[i].0][paths[i].1])
    {
      LastOfMore(paths, k, i);
    }
  }

  lemma LastOfMore(paths: seq<(nat, nat)>, k: nat, i: nat)
    requires k < |paths| && LastOf(paths, k + 1, i)
    ensures i == k || (LastOf(paths, k, i) && paths[i] != paths[k])
  {
  }

  lemma {:induction false} HasLast(paths: seq<(nat, nat)>, k: nat, e: (nat, nat)) returns (i: nat)
    requires k <= |paths| && e in paths[..k]
    ensures LastOf(paths, k, i) && paths[i] == e
  {
    if paths[k - 1] == e {
      i := k - 1;
    } else {
      assert paths[..k] == paths[..k - 1] + [paths[k - 1]];
      i := HasLast(paths, k - 1, e);
    }
  }

  /** The matrix is positive if and only if the cost that counts for each path is. */
  lemma PositiveIffCostsAre(m: Matrix, paths: seq<(nat, nat)>, costs: seq<Option<Weight>>, k: nat)
    requires k <= |paths| == |costs| && Loaded(m, paths, costs, k)
    requires forall i :: 0 <= i < k ==> Usable(costs[i])
    ensures Positive(m) <==> forall i: nat :: LastOf(paths, k, i) ==> costs[i].value.value > 0.0
  {
    if Positive(m) {
      forall i: nat | LastOf(paths, k, i)
        ensures costs[i].value.value > 0.0
      {
        assert m[paths[i].0][paths[i].1] == costs[i].value;
      }
    }
    if forall i: nat :: LastOf(paths, k, i) ==> costs[i].value.value > 0.0 {
      forall u, v | 0 <= u < |m| && 0 <= v < |m| && m[u][v].Fin?
        ensures m[u][v].value > 0.0
      {
        assert Edge(m, u, v);
        var i := HasLast(paths, k, (u, v));
      }
    }
  }

  class Graph {
    const size: nat
    const prev: array<int>
    var matrix: Matrix

    ghost predicate Sized()
      reads this
    {
      Square(matrix) && |matrix| == size && prev.Length == size
    }

    ghost predicate Valid()
      reads this
    {
      Sized() && Positive(matrix)
    }

    constructor NewGraphFromMatrix(m: Matrix)
      requires WellFormed(m)
      ensures Valid() && fresh(prev) && matrix == m
    {
      size := |m|;
      matrix := m;
      prev := new int[|m|];
    }

    /**
     Reload the matrix from the measured paths.  `costs[i]` is what the cost lookup for `paths[i]` returns: an error
     or a weight.  A zero or infinite cost is an error as well.  A negative one is not, so the graph is good for
     searching only if each path's last cost is positive.
     */
    method RefreshWeights(paths: seq<(nat, nat)>, costs: seq<Option<Weight>>) returns (error: Option<nat>)
      requires Sized() && |costs| == |paths|
      requires forall i :: 0 <= i < |paths| ==> paths[i].0 < size && paths[i].1 < size
      modifies `matrix
      ensures Sized()
      ensures error.None? <==>
                forall i :: 0 <= i < |costs| ==> costs[i].Some? && costs[i].value.Fin? && costs[i].value.value != 0.0
      ensures error.Some? ==> error.value < |paths| && !Usable(costs[error.value])
      ensures var loaded := if error.Some? then error.value else |paths|;
              && (forall i :: 0 <= i < loaded ==> Usable(costs[i]))
              && Loaded(matrix, paths, costs, loaded)
              && (Valid() <==> forall i: nat :: LastOf(paths, loaded, i) ==> costs[i].value.value > 0.0)
    {
      hide Loaded, LastOf;
      matrix := seq(size, u => seq(size, v => Inf));
      NothingLoaded(matrix, paths, costs);
      for i := 0 to |paths|
        invariant Sized()
        invariant forall j :: 0 <= j < i ==> Usable(costs[j])
        invariant Loaded(matrix, paths, costs, i)
      {
        if costs[i].None? || costs[i].value == Inf || costs[i].value.value == 0.0 {
          PositiveIffCostsAre(matrix, paths, costs, i);
          return Some(i);
        }
        var (u, v) := paths[i];
        LoadOne(matrix, paths, costs, i);
        matrix := matrix[u := matrix[u][v := costs[i].value]];
      }
      PositiveIffCostsAre(matrix, paths, costs, |paths|);
      return None;
    }

    method Dijkstra(start: nat) returns (dist: array<Weight>)
      requires Valid() && start < size
      modifies prev
      ensures fresh(dist) && dist.Length == size
      ensures Optimal(matrix, start, dist[..])
      ensures Shaped(matrix, start, dist[..]) && PrevLinks(matrix, start, dist[..], prev[..])
      ensures Relaxed(matrix, dist[..]) && dist[start] == Fin(0.0)
    {
      dist := new Weight[size];
      for i := 0 to size
        invariant forall j :: 0 <= j < i ==> dist[j] == Inf && prev[j] == -1
      {
        dist[i] := Inf;
        prev[i] := -1;
      }
      dist[start] := Fin(0.0);
      var pq := new PriorityQueue();
      pq.Push(Route(start, 0.0));
      ghost var wit: seq<Path> := seq(size, i => [start]);
      ghost var u := start;
      StartSearch(matrix, start, dist[..], prev[..], wit);
      while |pq.items| > 0
        invariant fresh(dist) && dist.Length == size
        invariant fresh(pq) && pq.Valid()
        invariant Searching(matrix, start, dist[..], prev[..], wit, pq.Content(), u, size)
        decreases Cheaper(matrix, start, dist[..]), |pq.items|
      {
        ghost var before := pq.Content();
        var route := pq.HeapPop();
        ContainerHeap.BagMembers(before, pq.Content(), route);
        PopSearch(matrix, start, dist[..], prev[..], wit, before, route, pq.Content(), u);
        u := route.node;
        if Less(dist[route.node], Fin(route.distance)) {
          continue;
        }
        wit := RelaxNeighbours(start, dist, pq, wit, route.node);
      }
      assert pq.Content() == [];
      EmptyQueueOptimal(matrix, start, dist[..], wit, u);
    }

    /** The inner loop of Dijkstra. */
    method RelaxNeighbours(start: nat, dist: array<Weight>, pq: PriorityQueue, ghost wit: seq<Path>, u: nat)
      returns (ghost wit': seq<Path>)
      requires Valid() && dist.Length == size && u < size && pq.Valid()
      requires Searching(matrix, start, dist[..], prev[..], wit, pq.Content(), u, 0)
      requires Shaped(matrix, start, dist[..]) && |wit| == size && dist[u].Fin?
      modifies dist, prev, pq
      ensures Shaped(matrix, start, dist[..]) && pq.Valid()
      ensures Searching(matrix, start, dist[..], prev[..], wit', pq.Content(), u, size)
      ensures Cheaper(matrix, start, dist[..]) < old(Cheaper(matrix, start, dist[..]))
           || (dist[..] == old(dist[..]) && pq.items == old(pq.items))
    {
      hide Searching, Labelled, Queued, PrevLinks, Cheaper, Positive;
      wit' := wit;
      ghost var dist0, items0 := dist[..], pq.items;
      for v := 0 to size
        invariant Shaped(matrix, start, dist[..]) && |wit'| == size && dist[u].Fin? && pq.Valid()
        invariant Searching(matrix, start, dist[..], prev[..], wit', pq.Content(), u, v)
        invariant Cheaper(matrix, start, dist[..]) < Cheaper(matrix, start, dist0)
               || (dist[..] == dist0 && pq.items == items0)
      {
        if matrix[u][v] != Inf {
          var newDist := Plus(dist[u], matrix[u][v]);
          if Less(newDist, dist[v]) {
            assert Tense(matrix, dist[..], u, v);
            RelaxSearch(matrix, start, dist[..], prev[..], wit', pq.Content(), u, v);
            ghost var dist1, prev1 := dist[..], prev[..];
            dist[v] := newDist;
            prev[v] := u;
            assert dist[..] == dist1[v := newDist];
            assert prev[..] == prev1[v := u];
            pq.Push(Route(v, newDist.value));
            wit' := wit'[v := wit'[u] + [v]];
            continue;
          }
        }
        assert !Tense(matrix, dist[..], u, v);
        SkipSearch(matrix, start, dist[..], prev[..], wit', pq.Content(), u, v);
      }
    }

    method GetShortestPath(start: nat, end: nat) returns (r: Result<(Path, real), FindError>)
      requires Valid() && start < size && end < size
      modifies prev
      ensures r.Failure? <==> forall q :: !WalkFromTo(matrix, start, end, q)
      ensures r.Success? ==>
                && SimplePath(matrix, start, end, r.value.0)
                && ShortestPath(matrix, start, end, r.value.0)
                && Cost(matrix, r.value.0) == r.value.1
    {
      var dist := Dijkstra(start);
      ghost var labels, links := dist[..], prev[..];
      assert OptimalAt(matrix, start, end, labels[end]);
      if dist[end] == Inf {
        return Failure(NoPath);
      }
      var path: Path := [];
      var curr: int := end;
      while curr != -1
        invariant dist[..] == labels && prev[..] == links
        invariant Rebuilding(matrix, start, end, labels, links, curr, path)
        decreases curr != -1, Below(labels, curr)
      {
        FollowPrev(matrix, start, end, labels, links, curr, path);
        if prev[curr] != -1 {
          LinkFalls(matrix, start, labels, links, curr);
        }
        path := [curr] + path;
        curr := prev[curr];
      }
      RebuiltIsShortest(matrix, start, end, labels, links, path);
      return Success((path, dist[end].value));
    }

    method GetTopNShortestPaths(start: nat, end: nat, n: int) returns (r: Result<seq<PathResult>, FindError>)
      requires Valid() && start < size
      ensures r.Failure? <==> n <= 0 || forall p :: !SimplePath(matrix, start, end, p)
      ensures r.Success? ==> TopN(matrix, start, end, n, r.value)
    {
      if n <= 0 {
        return Failure(NotPositive);
      }
      var results: seq<PathResult> := [];
      var visited: set<Path> := {};
      var pq := [PathResult([start], 0.0)];
      ghost var q := SimplePaths(matrix, start, end);
      ghost var done: set<Path>, open, cur := {}, {[start]}, [start];
      Begin(q);
      while |pq| > 0 && |results| < n
        invariant |results| <= n
        invariant State(q, done, open, cur, |q.m|)
        invariant Queue(q, pq, open) && Collected(q, done, results)
        invariant visited + {[start]} == done + open
        decreases Universe(q) - done
      {
        var current, rest := ContainerHeap.Pop(pq, (x: PathResult) => x.distance);
        var lastNode := Last(current.path);
        PopQueue(q, pq, open, current, rest);
        forall p | p in open
          ensures Rank(q, current.path) <= Rank(q, p)
        {
          assert Item(q, p) in pq;
        }
        PopState(q, done, open, cur, current.path);
        if lastNode == end {
          CollectGoal(q, done, open, cur, results, current.path);
          results := results + [current];
          pq, done, open, cur := rest, done + {current.path}, open - {current.path}, current.path;
          continue;
        }
        assert Collected(q, done + {current.path}, results);
        done, open, cur := done + {current.path}, open - {current.path}, current.path;
        pq, visited, open := ExtendPath(current, lastNode, rest, visited, q, done, open);
      }
      CollectedIsTopN(q, done, open, cur, n, results);
      if |results| == 0 {
        return Failure(NoPath);
      }
      assert SimplePath(matrix, start, end, results[0].path);
      return Success(results);
    }

    /** The inner loop of GetTopNShortestPaths: queue `current` extended by each neighbour that keeps it simple. */
    method ExtendPath(current: PathResult, lastNode: nat, pq: seq<PathResult>, visited: set<Path>,
                      ghost q: Search, ghost done: set<Path>, ghost open: set<Path>)
      returns (pq': seq<PathResult>, visited': set<Path>, ghost open': set<Path>)
      requires Valid() && q.SimplePaths? && q.m == matrix && Ready(q) && InTree(q, current.path)
      requires State(q, done, open, current.path, 0) && Queue(q, pq, open)
      requires current.path in done && !Goal(q, current.path) && current == Item(q, current.path)
      requires lastNode == Last(current.path)
      requires visited + {[q.start]} == done + open
      ensures State(q, done, open', current.path, |q.m|) && Queue(q, pq', open')
      ensures visited' + {[q.start]} == done + open'
    {
      hide Ordered, Queue, InTree, Cost;
      pq', visited', open' := pq, visited, open;
      TreeShape(q, current.path);
      WalkInRange(matrix, current.path);
      for v := 0 to size
        invariant State(q, done, open', current.path, v) && Queue(q, pq', open')
        invariant visited' + {[q.start]} == done + open'
      {
        if matrix[lastNode][v] != Inf {
          if v in current.path {
            SkipState(q, done, open', current.path, v);
            continue;
          }
          var newPath := current.path + [v];
          var newDistance := current.distance + matrix[lastNode][v].value;
          if newPath !in visited' {
            QueueChild(q, done, open', current.path, v, pq', visited');
            visited', open' := visited' + {newPath}, open' + {newPath};
            pq' := pq' + [PathResult(newPath, newDistance)];
          } else {
            ChildSeen(q, done, open', current.path, v, visited');
          }
        } else {
          SkipState(q, done, open', current.path, v);
        }
      }
    }

    method FindNCircularPathsWithDirectEdge(edgeStart: nat, edgeEnd: nat, n: nat)
      returns (r: Result<seq<CircularPath>, FindError>, ghost cut: nat)
      requires Valid()
      ensures r == Failure(InvalidNodes) <==> edgeStart >= size || edgeEnd >= size
      ensures r.Failure? <==> !Edge(matrix, edgeStart, edgeEnd)
      ensures r.Success? ==>
                && Selection(matrix, edgeStart, edgeEnd, n, cut, r.value)
                && (forall i :: 0 <= i < |r.value| ==> r.value[i].length == |r.value[i].nodes| - 1)
                && forall i, j :: 0 <= i < j < |r.value| ==> r.value[i].length <= r.value[j].length
    {
      cut := size;
      if edgeStart >= size || edgeEnd >= size {
        return Failure(InvalidNodes), cut;
      }
      if matrix[edgeStart][edgeEnd] == Inf {
        return Failure(NoSuchEdge), cut;
      }
      var result: seq<CircularPath> := [];
      var uniquePaths: set<Path> := {};
      NoCyclesYet(matrix, edgeStart, edgeEnd, n);
      for startNode := 0 to size
        invariant cut == size
        invariant CompleteBelow(matrix, edgeStart, edgeEnd, n, startNode, result)
        invariant Keys(result, uniquePaths)
      {
        result, uniquePaths := CyclesFrom(startNode, edgeStart, edgeEnd, n, result, uniquePaths);
        if |result| >= n {
          cut := startNode;
          break;
        }
      }
      if cut == size {
        CompleteIsSelection(matrix, edgeStart, edgeEnd, n, result);
      }
      var sorted := SortByLength(result);
      SortSelection(matrix, edgeStart, edgeEnd, n, cut, result, sorted);
      return Success(sorted), cut;
    }

    /** The search from one start node. */
    method CyclesFrom(startNode: nat, edgeStart: nat, edgeEnd: nat, n: nat,
                      result: seq<CircularPath>, uniquePaths: set<Path>)
      returns (result': seq<CircularPath>, uniquePaths': set<Path>)
      requires Valid() && startNode < size
      requires CompleteBelow(matrix, edgeStart, edgeEnd, n, startNode, result)
      requires Keys(result, uniquePaths) && |result| <= n
      ensures |result'| <= n
      ensures |result'| == n ==> Selection(matrix, edgeStart, edgeEnd, n, startNode, result')
      ensures |result'| < n ==> CompleteBelow(matrix, edgeStart, edgeEnd, n, startNode + 1, result')
      ensures Keys(result', uniquePaths')
    {
      hide Cycling, State, Explored, Ordered, Parents, CycleQueue, CollectedCycles, CompleteBelow, Keys, InTree,
           Selection;
      var candidates := [CircularPath([startNode], 0, false, {startNode})];
      result', uniquePaths' := result, uniquePaths;
      ghost var q := RequiredEdge(matrix, startNode, edgeStart, edgeEnd);
      ghost var done: set<Path>, open, cur, here: seq<CircularPath> := {}, {[startNode]}, [startNode], [];
      BeginCycling(q, n, result, uniquePaths);
      while |candidates| > 0 && |result'| < n
        invariant Cycling(q, done, open, cur, size, candidates, n, result, here, uniquePaths')
        invariant result' == result + here && |result'| <= n
        decreases Universe(q) - done
      {
        var current, rest := ContainerHeap.Pop(candidates, (x: CircularPath) => x.length as real);
        PopCycling(q, done, open, cur, candidates, n, result, here, uniquePaths', current, rest);
        done, open, cur := done + {current.nodes}, open - {current.nodes}, current.nodes;
        var lastNode := Last(current.nodes);
        if lastNode == startNode && |current.nodes| > 1 && current.foundSubPath {
          if current.nodes !in uniquePaths' {
            here := here + [current];
            result' := result' + [current];
            uniquePaths' := uniquePaths' + {current.nodes};
            candidates := rest;
            continue;
          }
        }
        if |current.nodes| <= size * 2 {
          candidates, open := ExtendCycle(startNode, edgeStart, edgeEnd, current, lastNode, rest, uniquePaths',
                                          n, done, open, result, here);
        }
      }
      FinishCycling(q, done, open, cur, candidates, n, result, here, uniquePaths');
    }

    /** The inner loop of FindNCircularPathsWithDirectEdge: queue `current` extended by each allowed neighbour. */
    method ExtendCycle(startNode: nat, edgeStart: nat, edgeEnd: nat, current: CircularPath, lastNode: nat,
                       candidates: seq<CircularPath>, uniquePaths: set<Path>,
                       ghost n: nat, ghost done: set<Path>, ghost open: set<Path>,
                       ghost before: seq<CircularPath>, ghost here: seq<CircularPath>)
      returns (candidates': seq<CircularPath>, ghost open': set<Path>)
      requires Valid() && startNode < size
      requires var q := RequiredEdge(matrix, startNode, edgeStart, edgeEnd);
               && Cycling(q, done, open, current.nodes, 0, candidates, n, before, here, uniquePaths)
               && !Goal(q, current.nodes)
      requires current.nodes in done && current == CycleItem(edgeStart, edgeEnd, current.nodes)
      requires InTree(RequiredEdge(matrix, startNode, edgeStart, edgeEnd), current.nodes)
      requires |current.nodes| > 0 && lastNode == Last(current.nodes)
      ensures Cycling(RequiredEdge(matrix, startNode, edgeStart, edgeEnd), done, open', current.nodes, size,
                      candidates', n, before, here, uniquePaths)
    {
      hide Cycling, State, Explored, Ordered, Parents, CycleQueue, CollectedCycles, CompleteBelow, Keys, Step, Goal,
           InTree;
      candidates', open' := candidates, open;
      ghost var q := RequiredEdge(matrix, startNode, edgeStart, edgeEnd);
      for neighbor := 0 to size
        invariant Cycling(q, done, open', current.nodes, neighbor, candidates', n, before, here, uniquePaths)
      {
        StepTests(q, current, neighbor);
        if !Step(q, current.nodes, neighbor) {
          SkipCycling(q, done, open', current.nodes, neighbor, candidates', n, before, here, uniquePaths);
        } else {
          PushCycling(q, done, open', current.nodes, neighbor, candidates', n, before, here, uniquePaths);
        }
        if matrix[lastNode][neighbor] == Inf {
          continue;
        }
        if lastNode == edgeEnd && neighbor == edgeStart {
          continue;
        }
        if neighbor in current.visited && !(neighbor == startNode && current.foundSubPath) {
          continue;
        }
        var usesRequiredEdge := lastNode == edgeStart && neighbor == edgeEnd;
        var newFoundSubPath := current.foundSubPath || usesRequiredEdge;
        var newVisited := current.visited + {neighbor};
        var newNodes := current.nodes + [neighbor];
        if newNodes !in uniquePaths {
          candidates' := candidates' + [CircularPath(newNodes, current.length + 1, newFoundSubPath, newVisited)];
          open' := open' + {newNodes};
        }
      }
    }
  }

  /** sort.Slice by length: some order of the results in which the lengths do not fall. */
  method SortByLength(result: seq<CircularPath>) returns (sorted: seq<CircularPath>)
    ensures multiset(sorted) == multiset(result)
    ensures forall i, j :: 0 <= i < j < |sorted| ==> sorted[i].length <= sorted[j].length
  {
    sorted := [];
    var left := result;
    while |left| > 0
      invariant multiset(sorted) + multiset(left) == multiset(result)
      invariant forall i, j :: 0 <= i < j < |sorted| ==> sorted[i].length <= sorted[j].length
      invariant forall i, x :: 0 <= i < |sorted| && x in left ==> sorted[i].length <= x.length
      decreases |left|
    {
      var top, rest := ContainerHeap.Pop(left, (x: CircularPath) => x.length as real);
      sorted, left := sorted + [top], rest;
    }
  }
}
