/** The candidates of a pair of sites: its measured round trips over the best forward and return paths. */
module Candidates {
  import opened Wrappers
  import opened Graphs
  import opened PathQueues
  import opened RouteTables
  import opened TableFilling

  const TOP_N := 5

  /** What one latency measurement of a path returns: a latency, or nothing if it failed. */
  type Measurements = (int, Path) -> Option<int>

  ghost predicate EdgesWithin(m: Matrix, t: Table)
    requires Square(m)
  {
    forall u: nat, v: nat :: Edge(m, u, v) ==> u in t && v in t
  }

  function Join(f: Path, r: Path): (p: Path)
    requires |r| > 0
    ensures |p| == |f| + |r| - 1
  {
    f + r[1..]
  }

  /** Joining the paths keeps both legs, and every hop is an edge. */
  lemma JoinIsWalk(m: Matrix, site: nat, target: nat, f: Path, r: Path)
    requires Square(m) && WalkFromTo(m, site, target, f) && WalkFromTo(m, target, site, r)
    ensures Join(f, r)[..|f|] == f && Join(f, r)[|f| - 1..] == r
    ensures IsWalk(m, Join(f, r))
  {
    var p := Join(f, r);
    forall k | 0 < k < |p|
      ensures Edge(m, p[k - 1], p[k])
    {
      if k < |f| {
        assert Edge(m, f[k - 1], f[k]);
      } else {
        assert Edge(m, r[k - |f|], r[k - |f| + 1]);
      }
    }
  }

  /** A forward and a return path between two sites join to a round trip. */
  lemma JoinIsTrip(m: Matrix, t: Table, site: nat, target: nat, f: Path, r: Path)
    requires Square(m) && EdgesWithin(m, t) && site in t && target in t && site != target
    requires SimplePath(m, site, target, f) && SimplePath(m, target, site, r)
    ensures Trip(t, site, target, Join(f, r)) && Mid(Join(f, r), target) == |f| - 1
    ensures Join(f, r)[..|f|] == f && Join(f, r)[|f| - 1..] == r
  {
    hide Join;
    var p, mid := Join(f, r), |f| - 1;
    JoinIsWalk(m, site, target, f, r);
    assert forall i :: 0 <= i < |f| ==> p[i] == p[..|f|][i];
    assert p[|p| - 1] == p[mid..][|r| - 1];
    MidAt(p, target, mid);
    forall i | 0 <= i < |p|
      ensures p[i] in t
    {
      if i > 0 {
        assert Edge(m, p[i - 1], p[i]);
      } else {
        assert p[i] == f[0];
      }
    }
  }

  /** Ten per site on the route, and once the latency for every pass through site 0, unless it is an end. */
  method RoutePenalty(route: Path, src: int, dst: int, latency: int) returns (penalty: int)
    ensures penalty == |route| * 10 + if src != 0 && dst != 0 then multiset(route)[0] * latency else 0
  {
    penalty := |route| * 10;
    if src != 0 && dst != 0 {
      for i := 0 to |route|
        invariant penalty == |route| * 10 + multiset(route[..i])[0] * latency
      {
        assert route[..i + 1] == route[..i] + [route[i]];
        if route[i] == 0 {
          penalty := penalty + latency;
        }
      }
      assert route[..|route|] == route;
    }
  }

  ghost function Penalty(route: Path, src: int, dst: int, latency: int): int {
    |route| * 10 + if src != 0 && dst != 0 then multiset(route)[0] * latency else 0
  }

  /** The entry of the result list for the `i`-th forward and the `j`-th return path, if it could be measured. */
  ghost predicate IsResult(site: int, target: int, measure: Measurements, fs: seq<PathResult>, rs: seq<PathResult>,
                           i: nat, j: nat, c: Ranked)
  {
    && i < |fs| && j < |rs| && |rs[j].path| > 0
    && var p := Join(fs[i].path, rs[j].path);
       && measure(target, p).Some?
       && c == Ranked(i + 1, j + 1, measure(target, p).value + Penalty(p, site, target, measure(target, p).value), p)
  }

  ghost predicate IsSomeResult(site: int, target: int, measure: Measurements, fs: seq<PathResult>, rs: seq<PathResult>,
                               c: Ranked)
  {
    exists i: nat, j: nat :: IsResult(site, target, measure, fs, rs, i, j, c)
  }

  /** `results` holds exactly the measured combinations, each once, of the best forward and return paths. */
  ghost predicate Measured(m: Matrix, site: nat, target: nat, measure: Measurements, results: seq<Ranked>)
    requires Square(m)
  {
    exists fs, rs ::
      && TopN(m, site, target, TOP_N, fs) && TopN(m, target, site, TOP_N, rs)
      && IsResultList(site, target, measure, fs, rs, results)
  }

  ghost predicate IsResultList(site: int, target: int, measure: Measurements, fs: seq<PathResult>, rs: seq<PathResult>,
                               results: seq<Ranked>)
  {
    && (forall c :: c in results ==> IsSomeResult(site, target, measure, fs, rs, c))
    && (forall i: nat, j: nat, c :: IsResult(site, target, measure, fs, rs, i, j, c) ==> c in results)
    && (forall a, b :: 0 <= a < b < |results| ==> results[a] != results[b])
  }

  /** The combination of `a` and `b` comes before that of `i` and `j`. */
  predicate Before(a: nat, b: nat, i: nat, j: nat) {
    a < i || (a == i && b < j)
  }

  ghost predicate IsEarlier(site: int, target: int, measure: Measurements, fs: seq<PathResult>, rs: seq<PathResult>,
                            i: nat, j: nat, c: Ranked)
  {
    exists a: nat, b: nat :: Before(a, b, i, j) && IsResult(site, target, measure, fs, rs, a, b, c)
  }

  /** `results` holds exactly the measured combinations before that of `i` and `j`, each once. */
  ghost predicate Gathered(site: int, target: int, measure: Measurements, fs: seq<PathResult>, rs: seq<PathResult>,
                           i: nat, j: nat, results: seq<Ranked>)
  {
    && (forall c :: c in results ==> IsEarlier(site, target, measure, fs, rs, i, j, c))
    && (forall a: nat, b: nat, c :: Before(a, b, i, j) && IsResult(site, target, measure, fs, rs, a, b, c) ==>
          c in results)
    && (forall a, b :: 0 <= a < b < |results| ==> results[a] != results[b])
  }

  lemma GatherOne(site: int, target: int, measure: Measurements, fs: seq<PathResult>, rs: seq<PathResult>,
                  i: nat, j: nat, results: seq<Ranked>, c: Ranked)
    requires Gathered(site, target, measure, fs, rs, i, j, results) && IsResult(site, target, measure, fs, rs, i, j, c)
    ensures Gathered(site, target, measure, fs, rs, i, j + 1, results + [c])
  {
    hide Join, Penalty;
    forall d | d in results + [c]
      ensures IsEarlier(site, target, measure, fs, rs, i, j + 1, d)
    {
      if d in results {
        assert IsEarlier(site, target, measure, fs, rs, i, j, d);
        var a: nat, b: nat :| Before(a, b, i, j) && IsResult(site, target, measure, fs, rs, a, b, d);
        assert Before(a, b, i, j + 1);
      } else {
        assert Before(i, j, i, j + 1);
      }
    }
    assert !IsEarlier(site, target, measure, fs, rs, i, j, c);
  }

  lemma GatherNone(site: int, target: int, measure: Measurements, fs: seq<PathResult>, rs: seq<PathResult>,
                   i: nat, j: nat, results: seq<Ranked>)
    requires Gathered(site, target, measure, fs, rs, i, j, results)
    requires i < |fs| && j < |rs| && |rs[j].path| > 0 && measure(target, Join(fs[i].path, rs[j].path)).None?
    ensures Gathered(site, target, measure, fs, rs, i, j + 1, results)
  {
    hide Join, Penalty;
    forall d | d in results
      ensures IsEarlier(site, target, measure, fs, rs, i, j + 1, d)
    {
      assert IsEarlier(site, target, measure, fs, rs, i, j, d);
      var a: nat, b: nat :| Before(a, b, i, j) && IsResult(site, target, measure, fs, rs, a, b, d);
      assert Before(a, b, i, j + 1);
    }
  }

  lemma GatherRow(site: int, target: int, measure: Measurements, fs: seq<PathResult>, rs: seq<PathResult>,
                  i: nat, results: seq<Ranked>)
    requires Gathered(site, target, measure, fs, rs, i, |rs|, results)
    ensures Gathered(site, target, measure, fs, rs, i + 1, 0, results)
  {
    hide Join, Penalty;
    forall d | d in results
      ensures IsEarlier(site, target, measure, fs, rs, i + 1, 0, d)
    {
      assert IsEarlier(site, target, measure, fs, rs, i, |rs|, d);
      var a: nat, b: nat :| Before(a, b, i, |rs|) && IsResult(site, target, measure, fs, rs, a, b, d);
      assert Before(a, b, i + 1, 0);
    }
    forall a: nat, b: nat, c | Before(a, b, i + 1, 0) && IsResult(site, target, measure, fs, rs, a, b, c)
      ensures c in results
    {
      assert Before(a, b, i, |rs|);
    }
  }

  lemma GatherAll(site: int, target: int, measure: Measurements, fs: seq<PathResult>, rs: seq<PathResult>,
                  results: seq<Ranked>)
    requires Gathered(site, target, measure, fs, rs, |fs|, 0, results)
    ensures IsResultList(site, target, measure, fs, rs, results)
  {
    hide Join, Penalty;
    forall c | c in results
      ensures IsSomeResult(site, target, measure, fs, rs, c)
    {
      assert IsEarlier(site, target, measure, fs, rs, |fs|, 0, c);
    }
    forall a: nat, b: nat, c | IsResult(site, target, measure, fs, rs, a, b, c)
      ensures c in results
    {
      assert Before(a, b, |fs|, 0);
    }
  }

  /** Measure every combination of a forward and a return path. */
  method MeasureAll(site: int, target: int, measure: Measurements, fs: seq<PathResult>, rs: seq<PathResult>)
    returns (results: seq<Ranked>)
    requires forall j :: 0 <= j < |rs| ==> |rs[j].path| > 0
    ensures IsResultList(site, target, measure, fs, rs, results)
  {
    hide Gathered, IsResultList, Join;
    results := [];
    GatherStart(site, target, measure, fs, rs);
    for i := 0 to |fs|
      invariant Gathered(site, target, measure, fs, rs, i, 0, results)
    {
      for j := 0 to |rs|
        invariant Gathered(site, target, measure, fs, rs, i, j, results)
      {
        var fullPath := Join(fs[i].path, rs[j].path);
        var res := measure(target, fullPath);
        if res.Some? {
          var penalty := RoutePenalty(fullPath, site, target, res.value);
          var c := Ranked(i + 1, j + 1, res.value + penalty, fullPath);
          GatherOne(site, target, measure, fs, rs, i, j, results, c);
          results := results + [c];
        } else {
          GatherNone(site, target, measure, fs, rs, i, j, results);
        }
      }
      GatherRow(site, target, measure, fs, rs, i, results);
    }
    GatherAll(site, target, measure, fs, rs, results);
  }

  lemma GatherStart(site: int, target: int, measure: Measurements, fs: seq<PathResult>, rs: seq<PathResult>)
    ensures Gathered(site, target, measure, fs, rs, 0, 0, [])
  {
  }

  lemma MeasuredBy(m: Matrix, site: nat, target: nat, measure: Measurements, fs: seq<PathResult>, rs: seq<PathResult>,
                   results: seq<Ranked>)
    requires Square(m) && TopN(m, site, target, TOP_N, fs) && TopN(m, target, site, TOP_N, rs)
    requires IsResultList(site, target, measure, fs, rs, results)
    ensures Measured(m, site, target, measure, results)
  {
  }

  /** Every hop of a candidate is an edge of the graph. */
  lemma MeasuredIsWalk(m: Matrix, site: nat, target: nat, measure: Measurements, results: seq<Ranked>, c: Ranked)
    requires Square(m) && Measured(m, site, target, measure, results) && c in results
    ensures IsWalk(m, c.path)
  {
    hide Penalty, Join;
    var fs: seq<PathResult>, rs: seq<PathResult> :|
      && TopN(m, site, target, TOP_N, fs) && TopN(m, target, site, TOP_N, rs)
      && IsResultList(site, target, measure, fs, rs, results);
    var i: nat, j: nat :| IsResult(site, target, measure, fs, rs, i, j, c);
    JoinIsWalk(m, site, target, fs[i].path, rs[j].path);
  }

  /** There is at most one result for every pair of ranks, so the buffer for 25 results is never too small. */
  lemma AtMost25(m: Matrix, site: nat, target: nat, measure: Measurements, results: seq<Ranked>)
    requires Square(m) && Measured(m, site, target, measure, results)
    ensures |results| <= 25
  {
    hide Penalty, Join, SimplePath, IsSomeResult, IsResult;
    var fs: seq<PathResult>, rs: seq<PathResult> :|
      && TopN(m, site, target, TOP_N, fs) && TopN(m, target, site, TOP_N, rs)
      && IsResultList(site, target, measure, fs, rs, results);
    var slots: Path := seq(|results|, a requires 0 <= a < |results| => Slot(results[a]));
    forall a | 0 <= a < |slots|
      ensures slots[a] < 25
    {
      SlotInside(site, target, measure, fs, rs, results[a]);
    }
    forall a, b | 0 <= a < b < |slots|
      ensures slots[a] != slots[b]
    {
      SlotsDiffer(site, target, measure, fs, rs, results[a], results[b]);
    }
    SimpleBound(slots, 25);
  }

  function Slot(c: Ranked): nat {
    if c.forwardRank == 0 || c.returnRank == 0 then 0 else 5 * (c.forwardRank - 1) + (c.returnRank - 1)
  }

  lemma SlotInside(site: int, target: int, measure: Measurements, fs: seq<PathResult>, rs: seq<PathResult>, c: Ranked)
    requires |fs| <= 5 && |rs| <= 5 && IsSomeResult(site, target, measure, fs, rs, c)
    ensures Slot(c) < 25
  {
    hide Penalty, Join;
    var i: nat, j: nat :| IsResult(site, target, measure, fs, rs, i, j, c);
  }

  lemma SlotsDiffer(site: int, target: int, measure: Measurements, fs: seq<PathResult>, rs: seq<PathResult>,
                    c: Ranked, d: Ranked)
    requires |fs| <= 5 && |rs| <= 5 && c != d
    requires IsSomeResult(site, target, measure, fs, rs, c) && IsSomeResult(site, target, measure, fs, rs, d)
    ensures Slot(c) != Slot(d)
  {
    hide Penalty, Join;
    var i: nat, j: nat :| IsResult(site, target, measure, fs, rs, i, j, c);
    var k: nat, l: nat :| IsResult(site, target, measure, fs, rs, k, l, d);
    assert i != k || j != l;
  }

  lemma ResultsAreTrips(m: Matrix, t: Table, site: nat, target: nat, measure: Measurements,
                        fs: seq<PathResult>, rs: seq<PathResult>, results: seq<Ranked>)
    requires Square(m) && EdgesWithin(m, t) && site in t && target in t && site != target
    requires TopN(m, site, target, TOP_N, fs) && TopN(m, target, site, TOP_N, rs)
    requires IsResultList(site, target, measure, fs, rs, results)
    ensures forall c :: c in results ==> Trip(t, site, target, c.path)
  {
    forall c | c in results
      ensures Trip(t, site, target, c.path)
    {
      var i: nat, j: nat :| IsResult(site, target, measure, fs, rs, i, j, c);
      JoinIsTrip(m, t, site, target, fs[i].path, rs[j].path);
    }
  }
}
