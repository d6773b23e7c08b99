/**
 Weighted directed graphs as adjacency matrices, and the walks in them.  A missing edge has the weight
 infinity; a present edge has a positive real weight.
 */
module Graphs {

  datatype Weight = Fin(value: real) | Inf

  type Matrix = seq<seq<Weight>>

  type Path = seq<nat>

  /** The float comparison `a < b`, with the infinite weight above every finite one. */
  predicate Less(a: Weight, b: Weight) {
    a.Fin? && (b.Inf? || a.value < b.value)
  }

  function Plus(a: Weight, b: Weight): Weight {
    if a.Fin? && b.Fin? then Fin(a.value + b.value) else Inf
  }

  predicate Square(m: Matrix) {
    forall u :: 0 <= u < |m| ==> |m[u]| == |m|
  }

  predicate Positive(m: Matrix)
    requires Square(m)
  {
    forall u, v :: 0 <= u < |m| && 0 <= v < |m| && m[u][v].Fin? ==> m[u][v].value > 0.0
  }

  predicate WellFormed(m: Matrix) {
    Square(m) && Positive(m)
  }

  predicate Edge(m: Matrix, u: nat, v: nat)
    requires Square(m)
  {
    u < |m| && v < |m| && m[u][v].Fin?
  }

  predicate IsWalk(m: Matrix, p: Path)
    requires Square(m)
  {
    && |p| > 0
    && p[0] < |m|
    && forall i :: 0 < i < |p| ==> Edge(m, p[i - 1], p[i])
  }

  function Last(p: Path): nat
    requires |p| > 0
  {
    p[|p| - 1]
  }

  predicate WalkFromTo(m: Matrix, s: nat, t: nat, p: Path)
    requires Square(m)
  {
    IsWalk(m, p) && p[0] == s && Last(p) == t
  }

  predicate Simple(p: Path) {
    forall i, j :: 0 <= i < j < |p| ==> p[i] != p[j]
  }

  predicate SimplePath(m: Matrix, s: nat, t: nat, p: Path)
    requires Square(m)
  {
    WalkFromTo(m, s, t, p) && Simple(p)
  }

  /** Total weight of the edges of a walk. */
  ghost function Cost(m: Matrix, p: Path): real
    requires Square(m) && IsWalk(m, p)
  {
    if |p| == 1 then 0.0
    else
      assert Edge(m, p[|p| - 2], p[|p| - 1]);
      Cost(m, p[..|p| - 1]) + m[p[|p| - 2]][p[|p| - 1]].value
  }

  /** `p` is a cheapest walk from `s` to `t`, among all walks and not only among the simple ones. */
  ghost predicate ShortestPath(m: Matrix, s: nat, t: nat, p: Path)
    requires Square(m)
  {
    && WalkFromTo(m, s, t, p)
    && forall q :: WalkFromTo(m, s, t, q) ==> Cost(m, p) <= Cost(m, q)
  }

  lemma ExtendWalk(m: Matrix, p: Path, v: nat)
    requires Square(m) && IsWalk(m, p) && Edge(m, Last(p), v)
    ensures IsWalk(m, p + [v])
    ensures Cost(m, p + [v]) == Cost(m, p) + m[Last(p)][v].value
  {
    assert (p + [v])[..|p|] == p;
  }

  lemma PrependWalk(m: Matrix, u: nat, p: Path)
    requires Square(m) && IsWalk(m, p) && Edge(m, u, p[0])
    ensures IsWalk(m, [u] + p)
    ensures Cost(m, [u] + p) == m[u][p[0]].value + Cost(m, p)
    decreases |p|
  {
    var q := [u] + p;
    if |p| == 1 {
      assert q[..1] == [u];
    } else {
      PrependWalk(m, u, p[..|p| - 1]);
      assert q[..|q| - 1] == [u] + p[..|p| - 1];
    }
  }

  /** The cost of a prefix never exceeds the cost of the walk. */
  lemma PrefixCost(m: Matrix, p: Path, k: nat)
    requires WellFormed(m) && IsWalk(m, p) && 1 <= k <= |p|
    ensures IsWalk(m, p[..k])
    ensures 0.0 <= Cost(m, p[..k]) <= Cost(m, p)
    decreases |p|
  {
    if |p| > 1 {
      PrefixCost(m, p[..|p| - 1], if k < |p| then k else k - 1);
      assert Edge(m, p[|p| - 2], p[|p| - 1]);
      if k < |p| {
        assert p[..|p| - 1][..k] == p[..k];
      } else {
        assert p[..k] == p;
      }
    } else {
      assert p[..k] == p;
    }
  }

  /** Dropping the first node of a walk drops the weight of its first edge. */
  lemma DropFirst(m: Matrix, p: Path)
    requires Square(m) && IsWalk(m, p) && |p| > 1
    ensures IsWalk(m, p[1..])
    ensures Cost(m, p) == m[p[0]][p[1]].value + Cost(m, p[1..])
  {
    assert Edge(m, p[0], p[1]);
    PrependWalk(m, p[0], p[1..]);
    assert [p[0]] + p[1..] == p;
  }

  // ---------- Finitely many simple paths ----------

  ghost function Nodes(n: nat): (r: set<nat>)
    ensures forall v: nat {:trigger v in r} :: v in r <==> v < n
  {
    if n == 0 then {} else Nodes(n - 1) + {n - 1}
  }

  lemma {:induction false} NodesCount(n: nat)
    ensures |Nodes(n)| == n
  {
    if n > 0 {
      NodesCount(n - 1);
      assert n - 1 !in Nodes(n - 1);
    }
  }

  lemma SubsetCount<T>(a: set<T>, b: set<T>)
    requires a <= b
    ensures |a| <= |b|
  {
    assert b == a + (b - a);
  }

  ghost function Elements(p: Path): set<nat> {
    set i | 0 <= i < |p| :: p[i]
  }

  lemma ElementsCount(p: Path)
    requires Simple(p)
    ensures |Elements(p)| == |p|
  {
    if |p| > 0 {
      var q := p[..|p| - 1];
      ElementsCount(q);
      assert Elements(p) == Elements(q) + {p[|p| - 1]};
    }
  }

  /** A sequence of distinct nodes below `n` has at most `n` elements. */
  lemma SimpleBound(p: Path, n: nat)
    requires Simple(p) && forall i :: 0 <= i < |p| ==> p[i] < n
    ensures |p| <= n
  {
    ElementsCount(p);
    NodesCount(n);
    SubsetCount(Elements(p), Nodes(n));
  }

  /** All sequences of at most `k` nodes below `n`. */
  ghost function Words(n: nat, k: nat): set<Path> {
    if k == 0 then {[]}
    else {[]} + set w, v | w in Words(n, k - 1) && v in Nodes(n) :: w + [v]
  }

  lemma {:induction false} WordsComplete(n: nat, k: nat, p: Path)
    requires |p| <= k && forall i :: 0 <= i < |p| ==> p[i] < n
    ensures p in Words(n, k)
  {
    if |p| > 0 {
      WordsComplete(n, k - 1, p[..|p| - 1]);
      assert p == p[..|p| - 1] + [p[|p| - 1]];
    }
  }

  lemma WalkInRange(m: Matrix, p: Path)
    requires Square(m) && IsWalk(m, p)
    ensures forall i :: 0 <= i < |p| ==> p[i] < |m|
  {
    forall i | 0 <= i < |p| ensures p[i] < |m| {
      if i > 0 {
        assert Edge(m, p[i - 1], p[i]);
      }
    }
  }

  lemma SimplePathInWords(m: Matrix, s: nat, t: nat, p: Path)
    requires Square(m) && SimplePath(m, s, t, p)
    ensures |p| <= |m| && p in Words(|m|, |m|)
  {
    WalkInRange(m, p);
    SimpleBound(p, |m|);
    WordsComplete(|m|, |m|, p);
  }
}
