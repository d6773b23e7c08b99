/** The queue and the result list of the cycle search. */
module CycleQueues {
  import opened Graphs
  import opened Enumeration
  import opened ContainerHeap

  datatype CircularPath = CircularPath(nodes: Path, length: nat, foundSubPath: bool, visited: set<nat>)

  /** The fields of a CircularPath are determined by its nodes. */
  ghost function CycleItem(a: nat, b: nat, p: Path): CircularPath
  {
    CircularPath(p, if p == [] then 0 else |p| - 1, Uses(p, a, b), Elements(p))
  }

  ghost predicate CycleQueue(q: Search, pq: seq<CircularPath>, open: set<Path>)
    requires Ready(q) && q.RequiredEdge? && forall p :: p in open ==> InTree(q, p)
  {
    && (forall x :: x in pq ==> x.nodes in open && x == CycleItem(q.edgeStart, q.edgeEnd, x.nodes))
    && (forall p :: p in open ==> CycleItem(q.edgeStart, q.edgeEnd, p) in pq)
    && NoDuplicates(pq)
  }

  lemma PopCycleQueue(q: Search, pq: seq<CircularPath>, open: set<Path>, top: CircularPath, rest: seq<CircularPath>)
    requires Ready(q) && q.RequiredEdge? && (forall p :: p in open ==> InTree(q, p)) && CycleQueue(q, pq, open)
    requires top in pq && multiset(pq) == multiset(rest) + multiset{top}
    requires forall x :: x in rest ==> x in pq
    requires forall x :: x in pq ==> x == top || x in rest
    requires forall x :: x in pq ==> top.length <= x.length
    ensures CycleQueue(q, rest, open - {top.nodes})
    ensures forall p :: p in open ==> Rank(q, top.nodes) <= Rank(q, p)
  {
    PopDistinct(pq, top, rest);
    forall p | p in open
      ensures Rank(q, top.nodes) <= Rank(q, p)
    {
      assert CycleItem(q.edgeStart, q.edgeEnd, p) in pq;
    }
  }

  lemma ChildItem(a: nat, b: nat, p: Path, v: nat)
    requires |p| > 0
    ensures CycleItem(a, b, p + [v]) ==
            CircularPath(p + [v], |p|, Uses(p, a, b) || (Last(p) == a && v == b), Elements(p) + {v})
  {
    var c := p + [v];
    assert Elements(c) == Elements(p) + {v};
    assert c[..|p|] == p;
    PrefixUses(c, |p|, a, b);
    if Last(p) == a && v == b {
      assert c[|p| - 1] == a && c[|p|] == b;
    }
    if Uses(c, a, b) {
      var i :| 0 < i < |c| && c[i - 1] == a && c[i] == b;
      if i < |p| {
        assert p[i - 1] == a && p[i] == b;
      }
    }
  }

  /** The child of `cur` along `k` is queued. */
  lemma QueueCycleChild(q: Search, done: set<Path>, open: set<Path>, cur: Path, k: nat, pq: seq<CircularPath>)
    requires State(q, done, open, cur, k) && q.RequiredEdge? && CycleQueue(q, pq, open)
    requires cur in done && !Goal(q, cur) && Step(q, cur, k)
    requires cur + [k] !in done + open
    ensures var p := cur + [k];
            && State(q, done, open + {p}, cur, k + 1)
            && CycleQueue(q, pq + [CycleItem(q.edgeStart, q.edgeEnd, p)], open + {p})
  {
    var p := cur + [k];
    var x := CycleItem(q.edgeStart, q.edgeEnd, p);
    PushState(q, done, open, cur, k);
    PushDistinct(pq, x);
    assert (pq + [x])[|pq|] == x;
  }

  /** The results found so far from the current start node: popped goals, each once and in order of length. */
  ghost predicate CollectedCycles(q: Search, done: set<Path>, here: seq<CircularPath>)
    requires Ready(q) && q.RequiredEdge? && forall p :: p in done ==> InTree(q, p)
  {
    && (forall x :: x in here ==>
          x.nodes in done && Goal(q, x.nodes) && x == CycleItem(q.edgeStart, q.edgeEnd, x.nodes))
    && (forall p :: p in done && Goal(q, p) ==> CycleItem(q.edgeStart, q.edgeEnd, p) in here)
    && (forall i, j :: 0 <= i < j < |here| ==> here[i].nodes != here[j].nodes)
  }

  lemma CollectCycle(q: Search, done: set<Path>, open: set<Path>, cur: Path, here: seq<CircularPath>, next: Path)
    requires State(q, done, open, cur, |q.m|) && q.RequiredEdge? && CollectedCycles(q, done, here)
    requires next in open && Goal(q, next)
    ensures CollectedCycles(q, done + {next}, here + [CycleItem(q.edgeStart, q.edgeEnd, next)])
  {
    var x := CycleItem(q.edgeStart, q.edgeEnd, next);
    forall i, j | 0 <= i < j < |here + [x]|
      ensures (here + [x])[i].nodes != (here + [x])[j].nodes
    {
      assert (here + [x])[i] in here;
    }
    assert (here + [x])[|here|] == x;
  }

  // ---------- The specification of the result ----------

  /** A cycle the search can list: a required cycle whose start node is not the end of the required edge. */
  ghost predicate Listable(m: Matrix, a: nat, b: nat, c: Path)
    requires Square(m)
  {
    RequiredCycle(m, a, b, c) && c[0] != b
  }

  ghost predicate Lists(results: seq<CircularPath>, c: Path) {
    exists i :: 0 <= i < |results| && results[i].nodes == c
  }

  /**
   The results are distinct listable cycles from start nodes up to `cut`; all those from start nodes below
   `cut`, and from `cut` itself a shortest selection.  Any is missing only if there are `n` results.
   */
  ghost predicate Selection(m: Matrix, a: nat, b: nat, n: nat, cut: nat, results: seq<CircularPath>)
    requires Square(m)
  {
    && |results| <= n
    && (forall i :: 0 <= i < |results| ==>
          && Listable(m, a, b, results[i].nodes)
          && results[i] == CycleItem(a, b, results[i].nodes)
          && results[i].nodes[0] <= cut)
    && (forall i, j :: 0 <= i < j < |results| ==> results[i].nodes != results[j].nodes)
    && (forall c :: Listable(m, a, b, c) && !Lists(results, c) && c[0] < |m| ==>
          && |results| == n
          && cut <= c[0]
          && (c[0] == cut ==> forall i :: 0 <= i < |results| && results[i].nodes[0] == cut ==> results[i].length < |c|))
  }

  /** What holds between two start nodes: exactly the listable cycles from the nodes below `k` are there. */
  ghost predicate CompleteBelow(m: Matrix, a: nat, b: nat, n: nat, k: nat, results: seq<CircularPath>)
    requires Square(m)
  {
    && |results| <= n
    && (forall i :: 0 <= i < |results| ==>
          && Listable(m, a, b, results[i].nodes)
          && results[i] == CycleItem(a, b, results[i].nodes)
          && results[i].nodes[0] < k)
    && (forall i, j :: 0 <= i < j < |results| ==> results[i].nodes != results[j].nodes)
    && (forall c :: Listable(m, a, b, c) && c[0] < k ==> Lists(results, c))
  }

  /** The search from one start node ended with its capacity used up. */
  lemma FinishFull(q: Search, done: set<Path>, open: set<Path>, cur: Path, n: nat,
                   before: seq<CircularPath>, here: seq<CircularPath>)
    requires State(q, done, open, cur, |q.m|) && q.RequiredEdge? && CollectedCycles(q, done, here)
    requires CompleteBelow(q.m, q.edgeStart, q.edgeEnd, n, q.start, before)
    requires |before + here| == n
    ensures Selection(q.m, q.edgeStart, q.edgeEnd, n, q.start, before + here)
  {
    var r := before + here;
    ResultsListable(q, done, n, before, here);
    forall c | Listable(q.m, q.edgeStart, q.edgeEnd, c) && !Lists(r, c) && c[0] < |q.m|
      ensures q.start <= c[0]
      ensures c[0] == q.start ==> forall i :: 0 <= i < |r| && r[i].nodes[0] == q.start ==> r[i].length < |c|
    {
      if c[0] <= q.start {
        MissingCycle(q, done, open, cur, n, before, here, c);
      }
    }
  }

  /** The search from one start node ended with nothing left to extend. */
  lemma FinishEmpty(q: Search, done: set<Path>, cur: Path, n: nat, before: seq<CircularPath>, here: seq<CircularPath>)
    requires State(q, done, {}, cur, |q.m|) && q.RequiredEdge? && CollectedCycles(q, done, here)
    requires CompleteBelow(q.m, q.edgeStart, q.edgeEnd, n, q.start, before)
    requires |before + here| <= n
    ensures CompleteBelow(q.m, q.edgeStart, q.edgeEnd, n, q.start + 1, before + here)
  {
    ResultsListable(q, done, n, before, here);
    forall c | Listable(q.m, q.edgeStart, q.edgeEnd, c) && c[0] < q.start + 1
      ensures Lists(before + here, c)
    {
      if !Lists(before + here, c) {
        MissingCycle(q, done, {}, cur, n, before, here, c);
      }
    }
  }

  lemma ResultsListable(q: Search, done: set<Path>, n: nat, before: seq<CircularPath>, here: seq<CircularPath>)
    requires Ready(q) && q.RequiredEdge? && (forall p :: p in done ==> InTree(q, p)) && CollectedCycles(q, done, here)
    requires CompleteBelow(q.m, q.edgeStart, q.edgeEnd, n, q.start, before)
    ensures forall i :: 0 <= i < |before + here| ==>
              var x := (before + here)[i];
              && Listable(q.m, q.edgeStart, q.edgeEnd, x.nodes)
              && x == CycleItem(q.edgeStart, q.edgeEnd, x.nodes)
              && (if i < |before| then x.nodes[0] < q.start else x.nodes[0] == q.start && x in here)
    ensures forall i, j :: 0 <= i < j < |before + here| ==> (before + here)[i].nodes != (before + here)[j].nodes
  {
    forall i | 0 <= i < |here|
      ensures Listable(q.m, q.edgeStart, q.edgeEnd, here[i].nodes) && here[i].nodes[0] == q.start
      ensures here[i] == CycleItem(q.edgeStart, q.edgeEnd, here[i].nodes)
    {
      assert here[i] in here;
      CycleGoals(q.m, q.start, q.edgeStart, q.edgeEnd, here[i].nodes);
    }
  }

  lemma MissingCycle(q: Search, done: set<Path>, open: set<Path>, cur: Path, n: nat,
                     before: seq<CircularPath>, here: seq<CircularPath>, c: Path)
    requires State(q, done, open, cur, |q.m|) && q.RequiredEdge? && CollectedCycles(q, done, here)
    requires CompleteBelow(q.m, q.edgeStart, q.edgeEnd, n, q.start, before)
    requires Listable(q.m, q.edgeStart, q.edgeEnd, c) && c[0] <= q.start && !Lists(before + here, c)
    ensures c[0] == q.start && open != {}
    ensures var r := before + here;
            forall i :: 0 <= i < |r| && r[i].nodes[0] == q.start ==> r[i].length < |c|
  {
    var r := before + here;
    forall i | 0 <= i < |before|
      ensures before[i].nodes != c
    {
      assert r[i] == before[i];
    }
    assert !Lists(before, c);
    forall i | 0 <= i < |here|
      ensures here[i].nodes != c
    {
      assert r[|before| + i] == here[i];
    }
    CycleGoals(q.m, q.start, q.edgeStart, q.edgeEnd, c);
    assert c !in done;
    NothingLighterLeft(q, done, open, cur, c);
    ResultsListable(q, done, n, before, here);
    forall i | 0 <= i < |r| && r[i].nodes[0] == q.start
      ensures r[i].length < |c|
    {
      assert r[i] in here && Rank(q, r[i].nodes) <= Rank(q, c);
    }
  }

  lemma CompleteIsSelection(m: Matrix, a: nat, b: nat, n: nat, results: seq<CircularPath>)
    requires Square(m) && CompleteBelow(m, a, b, n, |m|, results)
    ensures Selection(m, a, b, n, |m|, results)
  {
  }

  lemma NoCyclesYet(m: Matrix, a: nat, b: nat, n: nat)
    requires Square(m)
    ensures CompleteBelow(m, a, b, n, 0, [])
  {
  }

  ghost predicate Keys(results: seq<CircularPath>, keys: set<Path>) {
    && (forall x :: x in results ==> x.nodes in keys)
    && (forall k :: k in keys ==> Lists(results, k))
  }

  lemma AddKey(results: seq<CircularPath>, keys: set<Path>, x: CircularPath)
    requires Keys(results, keys)
    ensures Keys(results + [x], keys + {x.nodes})
  {
    var r := results + [x];
    forall k | k in keys + {x.nodes}
      ensures Lists(r, k)
    {
      if k == x.nodes {
        assert r[|results|].nodes == k;
      } else {
        var i :| 0 <= i < |results| && results[i].nodes == k;
        assert r[i].nodes == k;
      }
    }
  }

  /** A queued sequence has not been accepted before. */
  lemma NotAccepted(q: Search, done: set<Path>, open: set<Path>, cur: Path, k: nat, n: nat,
                    before: seq<CircularPath>, here: seq<CircularPath>, keys: set<Path>, p: Path)
    requires State(q, done, open, cur, k) && q.RequiredEdge?
    requires CollectedCycles(q, done, here) && CompleteBelow(q.m, q.edgeStart, q.edgeEnd, n, q.start, before)
    requires Keys(before + here, keys)
    requires InTree(q, p) && p !in done
    ensures p !in keys
  {
    TreeShape(q, p);
    ResultsListable(q, done, n, before, here);
    var r := before + here;
    forall i | 0 <= i < |r|
      ensures r[i].nodes != p
    {
    }
  }

  /** The invariant of the search from one start node. */
  ghost predicate Cycling(q: Search, done: set<Path>, open: set<Path>, cur: Path, k: nat, pq: seq<CircularPath>,
                          n: nat, before: seq<CircularPath>, here: seq<CircularPath>, keys: set<Path>)
  {
    && State(q, done, open, cur, k) && q.RequiredEdge?
    && Parents(done, open, cur, k)
    && CycleQueue(q, pq, open)
    && CollectedCycles(q, done, here)
    && CompleteBelow(q.m, q.edgeStart, q.edgeEnd, n, q.start, before)
    && Keys(before + here, keys)
  }

  lemma BeginCycling(q: Search, n: nat, before: seq<CircularPath>, keys: set<Path>)
    requires Ready(q) && q.RequiredEdge? && Keys(before, keys)
    requires CompleteBelow(q.m, q.edgeStart, q.edgeEnd, n, q.start, before)
    ensures Cycling(q, {}, {[q.start]}, [q.start], |q.m|, [CircularPath([q.start], 0, false, {q.start})],
                    n, before, [], keys)
  {
    Begin(q);
    assert before + [] == before;
    var x := CircularPath([q.start], 0, false, {q.start});
    assert x == CycleItem(q.edgeStart, q.edgeEnd, [q.start]);
    assert [x][0] == x;
  }

  /** A popped goal is new and is collected; anything else popped is extended next. */
  lemma PopCycling(q: Search, done: set<Path>, open: set<Path>, cur: Path, pq: seq<CircularPath>,
                   n: nat, before: seq<CircularPath>, here: seq<CircularPath>, keys: set<Path>,
                   top: CircularPath, rest: seq<CircularPath>)
    requires Cycling(q, done, open, cur, |q.m|, pq, n, before, here, keys)
    requires top in pq && multiset(pq) == multiset(rest) + multiset{top}
    requires forall x :: x in rest ==> x in pq
    requires forall x :: x in pq ==> x == top || x in rest
    requires forall x :: x in pq ==> top.length <= x.length
    ensures 0 < |top.nodes| <= |q.m| + 1 && top.nodes !in keys && top.nodes !in done
    ensures InTree(q, top.nodes) && top == CycleItem(q.edgeStart, q.edgeEnd, top.nodes)
    ensures Universe(q) - (done + {top.nodes}) < Universe(q) - done
    ensures !Goal(q, top.nodes) ==>
              Cycling(q, done + {top.nodes}, open - {top.nodes}, top.nodes, 0, rest, n, before, here, keys)
    ensures Goal(q, top.nodes) ==>
              Cycling(q, done + {top.nodes}, open - {top.nodes}, top.nodes, |q.m|, rest,
                      n, before, here + [top], keys + {top.nodes})
  {
    hide State, Explored, Ordered, Parents, CycleQueue, CollectedCycles, CompleteBelow, Keys, InTree, Step, Goal;
    PopEnumeration(q, done, open, cur, pq, top, rest);
    NotAccepted(q, done, open, cur, |q.m|, n, before, here, keys, top.nodes);
    if Goal(q, top.nodes) {
      CollectCycle(q, done, open, cur, here, top.nodes);
      AddKey(before + here, keys, top);
      assert before + here + [top] == before + (here + [top]);
    } else {
      KeepCollected(q, done, open, cur, here, top.nodes);
    }
  }

  lemma KeepCollected(q: Search, done: set<Path>, open: set<Path>, cur: Path, here: seq<CircularPath>, p: Path)
    requires State(q, done, open, cur, |q.m|) && q.RequiredEdge? && CollectedCycles(q, done, here)
    requires InTree(q, p) && !Goal(q, p)
    ensures CollectedCycles(q, done + {p}, here)
  {
  }

  lemma PopEnumeration(q: Search, done: set<Path>, open: set<Path>, cur: Path, pq: seq<CircularPath>,
                       top: CircularPath, rest: seq<CircularPath>)
    requires State(q, done, open, cur, |q.m|) && q.RequiredEdge?
    requires Parents(done, open, cur, |q.m|) && CycleQueue(q, pq, open)
    requires top in pq && multiset(pq) == multiset(rest) + multiset{top}
    requires forall x :: x in rest ==> x in pq
    requires forall x :: x in pq ==> x == top || x in rest
    requires forall x :: x in pq ==> top.length <= x.length
    ensures var p, k := top.nodes, if Goal(q, top.nodes) then |q.m| else 0;
            && 0 < |p| <= |q.m| + 1 && InTree(q, p) && p in open && p !in done
            && top == CycleItem(q.edgeStart, q.edgeEnd, p)
            && State(q, done + {p}, open - {p}, p, k)
            && Parents(done + {p}, open - {p}, p, k)
            && CycleQueue(q, rest, open - {p})
            && Universe(q) - (done + {p}) < Universe(q) - done
  {
    var p := top.nodes;
    PopCycleQueue(q, pq, open, top, rest);
    PopState(q, done, open, cur, p);
    PopParents(done, open, cur, |q.m|, p, if Goal(q, p) then |q.m| else 0);
    TreeIsFinite(q, p);
  }

  /** The tests the source makes before following the edge to `v` are exactly Step. */
  lemma StepTests(q: Search, x: CircularPath, v: nat)
    requires Ready(q) && q.RequiredEdge? && InTree(q, x.nodes) && v < |q.m|
    requires x == CycleItem(q.edgeStart, q.edgeEnd, x.nodes)
    ensures Last(x.nodes) < |q.m|
    ensures Step(q, x.nodes, v) <==>
            && q.m[Last(x.nodes)][v] != Inf
            && !(Last(x.nodes) == q.edgeEnd && v == q.edgeStart)
            && !(v in x.visited && !(v == q.start && x.foundSubPath))
  {
    TreeShape(q, x.nodes);
    WalkInRange(q.m, x.nodes);
  }

  lemma SkipCycling(q: Search, done: set<Path>, open: set<Path>, cur: Path, k: nat, pq: seq<CircularPath>,
                    n: nat, before: seq<CircularPath>, here: seq<CircularPath>, keys: set<Path>)
    requires Cycling(q, done, open, cur, k, pq, n, before, here, keys)
    requires cur in done && !Step(q, cur, k)
    ensures Cycling(q, done, open, cur, k + 1, pq, n, before, here, keys)
  {
    SkipState(q, done, open, cur, k);
    PushParents(done, open, cur, k);
  }

  lemma PushCycling(q: Search, done: set<Path>, open: set<Path>, cur: Path, k: nat, pq: seq<CircularPath>,
                    n: nat, before: seq<CircularPath>, here: seq<CircularPath>, keys: set<Path>)
    requires Cycling(q, done, open, cur, k, pq, n, before, here, keys)
    requires cur in done && !Goal(q, cur) && Step(q, cur, k)
    ensures var p := cur + [k];
            var x := CircularPath(p, |cur|,
                                  Uses(cur, q.edgeStart, q.edgeEnd) || (Last(cur) == q.edgeStart && k == q.edgeEnd),
                                  Elements(cur) + {k});
            && p !in keys
            && Cycling(q, done, open + {p}, cur, k + 1, pq + [x], n, before, here, keys)
  {
    PushParents(done, open, cur, k);
    ChildItem(q.edgeStart, q.edgeEnd, cur, k);
    ChildInTree(q, cur, k);
    NotAccepted(q, done, open, cur, k, n, before, here, keys, cur + [k]);
    QueueCycleChild(q, done, open, cur, k, pq);
  }

  lemma FinishCycling(q: Search, done: set<Path>, open: set<Path>, cur: Path, pq: seq<CircularPath>,
                      n: nat, before: seq<CircularPath>, here: seq<CircularPath>, keys: set<Path>)
    requires Cycling(q, done, open, cur, |q.m|, pq, n, before, here, keys)
    requires |before + here| <= n && (|pq| == 0 || |before + here| == n)
    ensures Square(q.m) && Keys(before + here, keys)
    ensures |before + here| == n ==> Selection(q.m, q.edgeStart, q.edgeEnd, n, q.start, before + here)
    ensures |before + here| < n ==> CompleteBelow(q.m, q.edgeStart, q.edgeEnd, n, q.start + 1, before + here)
  {
    if |before + here| == n {
      FinishFull(q, done, open, cur, n, before, here);
    } else {
      assert forall p :: p in open ==> CycleItem(q.edgeStart, q.edgeEnd, p) in pq;
      assert open == {};
      FinishEmpty(q, done, cur, n, before, here);
    }
  }

  /** The order of the results does not matter for what they are. */
  lemma SortSelection(m: Matrix, a: nat, b: nat, n: nat, cut: nat, results: seq<CircularPath>,
                      sorted: seq<CircularPath>)
    requires Square(m) && Selection(m, a, b, n, cut, results)
    requires multiset(sorted) == multiset(results)
    ensures Selection(m, a, b, n, cut, sorted)
  {
    assert |sorted| == |multiset(sorted)| == |results|;
    forall i | 0 <= i < |sorted|
      ensures sorted[i] in results
    {
      assert sorted[i] in multiset(sorted);
    }
    forall i | 0 <= i < |results|
      ensures results[i] in sorted
    {
      assert results[i] in multiset(results);
    }
    DistinctSurvives(results, sorted);
    forall c | Listable(m, a, b, c) && !Lists(sorted, c)
      ensures !Lists(results, c)
    {
      forall i | 0 <= i < |results|
        ensures results[i].nodes != c
      {
        var j :| 0 <= j < |sorted| && sorted[j] == results[i];
      }
    }
  }

  lemma DistinctSurvives(results: seq<CircularPath>, sorted: seq<CircularPath>)
    requires multiset(sorted) == multiset(results)
    requires forall i, j :: 0 <= i < j < |results| ==> results[i].nodes != results[j].nodes
    ensures forall i, j :: 0 <= i < j < |sorted| ==> sorted[i].nodes != sorted[j].nodes
  {
    forall i, j | 0 <= i < j < |sorted|
      ensures sorted[i].nodes != sorted[j].nodes
    {
      assert sorted[i] in multiset(results) && sorted[j] in multiset(results);
      OnceOnly(results, sorted[i]);
      if sorted[i] == sorted[j] {
        Repeated(sorted, i, j);
      }
    }
  }

  lemma Repeated(s: seq<CircularPath>, i: nat, j: nat)
    requires i < j < |s| && s[i] == s[j]
    ensures multiset(s)[s[i]] >= 2
  {
    assert s == s[..j] + [s[j]] + s[j + 1..];
    assert s[..j][i] in multiset(s[..j]);
  }

  lemma OnceOnly(s: seq<CircularPath>, x: CircularPath)
    requires forall i, j :: 0 <= i < j < |s| ==> s[i].nodes != s[j].nodes
    requires x in s
    ensures multiset(s)[x] == 1
  {
    var k :| 0 <= k < |s| && s[k] == x;
    assert s == s[..k] + [s[k]] + s[k + 1..];
    assert x !in s[..k] && x !in s[k + 1..];
  }
}
