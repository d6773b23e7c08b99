/**
 Hop-by-hop forwarding when every site picks its next hop on its own: the second node of some shortest path to
 the destination.  The sites need not agree on how ties between shortest paths are broken.
 */
module GraphRouting {
  import opened Wrappers
  import opened Graphs
  import opened Finder

  ghost predicate Reachable(m: Matrix, s: nat, t: nat)
    requires Square(m)
  {
    exists p :: WalkFromTo(m, s, t, p)
  }

  /** `choice[x]` is the path the shortest-path search returned at site `x` for the destination `t`. */
  ghost predicate Chosen(m: Matrix, t: nat, choice: seq<Path>)
    requires Square(m)
  {
    && |choice| == |m|
    && forall x :: 0 <= x < |m| && Reachable(m, x, t) ==> ShortestPath(m, x, t, choice[x])
  }

  /** Site numbers start where the private AS numbers of the sites start. */
  const FIRST_AS := 64512

  function AsToSiteID(asNumber: int): int {
    asNumber - FIRST_AS
  }

  /** The next hop a site picks for an origin AS: the second node of a shortest path, if there is one. */
  method GraphNextHop(g: Graph, localAs: int, originAs: int) returns (r: Result<nat, FindError>)
    requires g.Valid()
    requires 64512 <= localAs < 64512 + g.size && 64512 <= originAs < 64512 + g.size
    modifies g.prev
    ensures r.Success? <==> localAs != originAs && Reachable(g.matrix, localAs - 64512, originAs - 64512)
    ensures r.Success? ==>
              exists p :: ShortestPath(g.matrix, localAs - 64512, originAs - 64512, p) && |p| > 1 && p[1] == r.value
  {
    var s, t := AsToSiteID(localAs), AsToSiteID(originAs);
    var path := g.GetShortestPath(s, t);
    if path.Failure? {
      return Failure(path.error);
    }
    var p := path.value.0;
    assert WalkFromTo(g.matrix, s, t, p);
    if |p| < 2 {
      return Failure(NoPath);
    }
    return Success(p[1]);
  }

  /** The node after `x` on the way to `t`: `path[1]`. */
  function NextHop(choice: seq<Path>, x: nat): nat
    requires x < |choice| && |choice[x]| > 1
  {
    choice[x][1]
  }

  /** The next hop is an edge on a shortest path: the remaining distance drops by exactly its weight. */
  lemma HopIsTight(m: Matrix, t: nat, choice: seq<Path>, x: nat)
    requires WellFormed(m) && Chosen(m, t, choice)
    requires x < |m| && x != t && Reachable(m, x, t)
    ensures |choice[x]| > 1
    ensures var y := NextHop(choice, x);
            && Edge(m, x, y) && Reachable(m, y, t)
            && Cost(m, choice[x]) == m[x][y].value + Cost(m, choice[y])
            && Cost(m, choice[y]) < Cost(m, choice[x])
  {
    var p := choice[x];
    assert ShortestPath(m, x, t, p);
    var y, rest := p[1], p[1..];
    assert Edge(m, p[0], p[1]);
    DropFirst(m, p);
    assert WalkFromTo(m, y, t, rest);
    assert ShortestPath(m, y, t, choice[y]);
    PrependWalk(m, x, choice[y]);
    var q := [x] + choice[y];
    assert Last(q) == Last(choice[y]);
    assert WalkFromTo(m, x, t, q);
  }

  /** The sites a packet for `t` visits from `x`, when every site forwards it to its own next hop. */
  ghost function Forward(choice: seq<Path>, t: nat, x: nat, hops: nat): Path
    decreases hops
  {
    if x == t || hops == 0 || x >= |choice| || |choice[x]| <= 1 then [x]
    else [x] + Forward(choice, t, NextHop(choice, x), hops - 1)
  }

  /** The sites closer to `t` than `x`. */
  ghost function Closer(m: Matrix, t: nat, choice: seq<Path>, x: nat): set<nat>
    requires Square(m) && Chosen(m, t, choice) && x < |m| && Reachable(m, x, t)
  {
    set y | y in Nodes(|m|) && Reachable(m, y, t) && Cost(m, choice[y]) < Cost(m, choice[x])
  }

  /** `f` is a walk to `t` as cheap as the path chosen at its first site, along which the remaining distance falls. */
  ghost predicate Descends(m: Matrix, t: nat, choice: seq<Path>, f: Path)
    requires Square(m) && Chosen(m, t, choice)
  {
    && IsWalk(m, f) && Last(f) == t
    && (forall i :: 0 <= i < |f| ==> f[i] < |m| && Reachable(m, f[i], t))
    && Cost(m, f) == Cost(m, choice[f[0]])
    && (forall i, j :: 0 <= i < j < |f| ==> Cost(m, choice[f[j]]) < Cost(m, choice[f[i]]))
  }

  lemma DescendOneMore(m: Matrix, t: nat, choice: seq<Path>, x: nat, f: Path)
    requires WellFormed(m) && Chosen(m, t, choice)
    requires x < |m| && x != t && Reachable(m, x, t)
    requires Descends(m, t, choice, f) && |choice[x]| > 1 && f[0] == NextHop(choice, x)
    ensures Descends(m, t, choice, [x] + f)
  {
    hide Cost, Reachable;
    var g := [x] + f;
    HopIsTight(m, t, choice, x);
    PrependWalk(m, x, f);
    assert Last(g) == Last(f);
    forall i, j | 0 <= i < j < |g|
      ensures Cost(m, choice[g[j]]) < Cost(m, choice[g[i]])
    {
      assert g[j] == f[j - 1];
      if i > 0 {
        assert g[i] == f[i - 1];
      }
    }
  }

  lemma {:induction false} ForwardDescends(m: Matrix, t: nat, choice: seq<Path>, x: nat, hops: nat)
    requires WellFormed(m) && Chosen(m, t, choice) && x < |m| && t < |m| && Reachable(m, x, t)
    requires |Closer(m, t, choice, x)| <= hops
    ensures var f := Forward(choice, t, x, hops);
            Descends(m, t, choice, f) && f[0] == x
    decreases hops
  {
    hide Closer, Reachable;
    if x == t {
      AtDestination(m, t, choice);
    } else {
      HopIsTight(m, t, choice, x);
      var y := NextHop(choice, x);
      CloserShrinks(m, t, choice, x, y);
      ForwardDescends(m, t, choice, y, hops - 1);
      DescendOneMore(m, t, choice, x, Forward(choice, t, y, hops - 1));
    }
  }

  lemma CloserShrinks(m: Matrix, t: nat, choice: seq<Path>, x: nat, y: nat)
    requires Square(m) && Chosen(m, t, choice) && x < |m| && y < |m| && Reachable(m, x, t) && Reachable(m, y, t)
    requires Cost(m, choice[y]) < Cost(m, choice[x])
    ensures |Closer(m, t, choice, y)| < |Closer(m, t, choice, x)|
  {
    hide Cost, IsWalk, Chosen, Reachable;
    var near, far := Closer(m, t, choice, y), Closer(m, t, choice, x);
    assert y in far && near + {y} <= far && y !in near;
    SubsetCount(near + {y}, far);
  }

  lemma AtDestination(m: Matrix, t: nat, choice: seq<Path>)
    requires WellFormed(m) && Chosen(m, t, choice) && t < |m|
    ensures Reachable(m, t, t) && Cost(m, choice[t]) == 0.0
  {
    assert WalkFromTo(m, t, t, [t]);
    PrefixCost(m, choice[t], 1);
  }

  /**
   Network-wide delivery: from every site that can reach `t` at all, forwarding visits no site twice and arrives
   after fewer hops than there are sites, having spent the least possible total cost.
   */
  lemma GraphModeDelivers(m: Matrix, t: nat, choice: seq<Path>, x: nat)
    requires WellFormed(m) && Chosen(m, t, choice) && x < |m| && t < |m| && Reachable(m, x, t)
    ensures var f := Forward(choice, t, x, |m|);
            SimplePath(m, x, t, f) && ShortestPath(m, x, t, f) && |f| <= |m|
  {
    var far := Closer(m, t, choice, x);
    NodesCount(|m|);
    SubsetCount(far, Nodes(|m|));
    ForwardDescends(m, t, choice, x, |m|);
    var f := Forward(choice, t, x, |m|);
    SimpleBound(f, |m|);
  }
}
