/**
 Best-first enumeration of node sequences.  Both path searches of the finder package walk a tree whose nodes are
 sequences: a sequence that is not a goal has one child for every neighbour that may follow it.  Popping the
 cheapest open sequence first, they yield the goals in order of weight.
 */
module Enumeration {
  import opened Graphs

  datatype Search =
    | SimplePaths(m: Matrix, start: nat, end: nat)
    | RequiredEdge(m: Matrix, start: nat, edgeStart: nat, edgeEnd: nat)

  ghost predicate Ready(q: Search) {
    WellFormed(q.m) && q.start < |q.m|
  }

  /** `p` goes from `a` directly to `b` somewhere. */
  predicate Uses(p: Path, a: nat, b: nat) {
    exists i :: 0 < i < |p| && p[i - 1] == a && p[i] == b
  }

  ghost predicate Goal(q: Search, p: Path) {
    |p| > 0 &&
    match q
    case SimplePaths(_, _, end) => Last(p) == end
    case RequiredEdge(_, start, a, b) => |p| > 1 && Last(p) == start && Uses(p, a, b)
  }

  /** `v` may follow the sequence `p`. */
  ghost predicate Step(q: Search, p: Path, v: nat)
    requires Ready(q) && |p| > 0
  {
    && Edge(q.m, Last(p), v)
    && match q
       case SimplePaths(_, _, _) => v !in p
       case RequiredEdge(_, start, a, b) =>
         !(Last(p) == b && v == a) && (v !in p || (v == start && Uses(p, a, b)))
  }

  ghost predicate InTree(q: Search, p: Path)
    requires Ready(q)
  {
    |p| > 0 &&
    if |p| == 1 then p[0] == q.start
    else
      var parent := p[..|p| - 1];
      InTree(q, parent) && !Goal(q, parent) && Step(q, parent, Last(p))
  }

  lemma {:induction false} TreeShape(q: Search, p: Path)
    requires Ready(q) && InTree(q, p)
    ensures IsWalk(q.m, p) && p[0] == q.start
    ensures Simple(p) || (Goal(q, p) && Simple(p[..|p| - 1]))
    decreases |p|
  {
    hide Cost;
    if |p| > 1 {
      var parent := p[..|p| - 1];
      TreeShape(q, parent);
      ExtendWalk(q.m, parent, Last(p));
      assert p == parent + [Last(p)];
      if !Simple(p) {
        assert Last(p) in parent;
        var i :| 0 < i < |parent| && parent[i - 1] == q.edgeStart && parent[i] == q.edgeEnd;
        assert p[i - 1] == q.edgeStart && p[i] == q.edgeEnd;
      }
    }
  }

  /** The order in which sequences leave the queue. */
  ghost function Rank(q: Search, p: Path): real
    requires Ready(q) && InTree(q, p)
  {
    TreeShape(q, p);
    if q.SimplePaths? then Cost(q.m, p) else (|p| - 1) as real
  }

  lemma ChildInTree(q: Search, p: Path, v: nat)
    requires Ready(q) && InTree(q, p) && !Goal(q, p) && Step(q, p, v)
    ensures InTree(q, p + [v])
    ensures Rank(q, p) <= Rank(q, p + [v])
  {
    assert (p + [v])[..|p|] == p;
    TreeShape(q, p);
    ExtendWalk(q.m, p, v);
  }

  lemma {:induction false} PrefixInTree(q: Search, p: Path, k: nat)
    requires Ready(q) && InTree(q, p) && 1 <= k <= |p|
    ensures InTree(q, p[..k])
    ensures Rank(q, p[..k]) <= Rank(q, p)
    ensures k < |p| ==> !Goal(q, p[..k]) && Step(q, p[..k], p[k])
    decreases |p|
  {
    if k == |p| {
      assert p[..k] == p;
    } else {
      var parent := p[..|p| - 1];
      PrefixInTree(q, parent, k);
      assert parent[..k] == p[..k];
      assert parent + [Last(p)] == p;
      ChildInTree(q, parent, Last(p));
      if k < |parent| {
        assert parent[k] == p[k];
      }
    }
  }

  /** A finite set with every tree node in it. */
  ghost function Universe(q: Search): set<Path> {
    Words(|q.m|, |q.m| + 1)
  }

  lemma TreeIsFinite(q: Search, p: Path)
    requires Ready(q) && InTree(q, p)
    ensures |p| <= |q.m| + 1
    ensures p in Universe(q)
  {
    TreeShape(q, p);
    WalkInRange(q.m, p);
    if Simple(p) {
      SimpleBound(p, |q.m|);
    } else {
      SimpleBound(p[..|p| - 1], |q.m|);
    }
    WordsComplete(|q.m|, |q.m| + 1, p);
  }

  /**
   The state of a search: `done` has been popped, `open` is queued.  The children of every popped sequence that is
   not a goal have been seen, except for the children `cur + [v]` with `v >= k`.
   */
  ghost predicate Explored(q: Search, done: set<Path>, open: set<Path>, cur: Path, k: nat) {
    && Ready(q)
    && done !! open
    && [q.start] in done + open
    && (forall p :: p in done + open ==> InTree(q, p))
    && (forall p: Path, v: nat {:trigger Step(q, p, v)} ::
          p in done && !Goal(q, p) && Step(q, p, v) && !(p == cur && v >= k) ==> p + [v] in done + open)
  }

  /** What has been popped is at most as heavy as `cur`, and `cur` at most as heavy as what is queued. */
  ghost predicate Ordered(q: Search, done: set<Path>, open: set<Path>, cur: Path)
    requires Ready(q) && forall p :: p in done + open ==> InTree(q, p)
  {
    && (done != {} ==> cur in done)
    && (forall p :: p in done ==> Rank(q, p) <= Rank(q, cur))
    && (forall p :: p in open && done != {} ==> Rank(q, cur) <= Rank(q, p))
  }

  ghost predicate State(q: Search, done: set<Path>, open: set<Path>, cur: Path, k: nat) {
    Explored(q, done, open, cur, k) && Ordered(q, done, open, cur)
  }

  lemma Begin(q: Search)
    requires Ready(q)
    ensures State(q, {}, {[q.start]}, [q.start], |q.m|)
  {
    assert InTree(q, [q.start]);
  }

  /** Popping a lightest sequence; its children are still to be seen unless it is a goal. */
  lemma PopState(q: Search, done: set<Path>, open: set<Path>, cur: Path, next: Path)
    requires State(q, done, open, cur, |q.m|)
    requires next in open
    requires InTree(q, next) && forall p :: p in open ==> InTree(q, p) && Rank(q, next) <= Rank(q, p)
    ensures State(q, done + {next}, open - {next}, next, if Goal(q, next) then |q.m| else 0)
    ensures next in Universe(q) - done
    ensures Universe(q) - (done + {next}) < Universe(q) - done
  {
    TreeIsFinite(q, next);
    assert done + {next} + (open - {next}) == done + open;
    forall p: Path, v: nat | p in done + {next} && !Goal(q, p) && Step(q, p, v) && p != next
      ensures p + [v] in done + open
    {
      assert v < |q.m|;
    }
    assert next in Universe(q) - done && next !in Universe(q) - (done + {next});
  }

  /** Seeing the child of `cur` along `k`. */
  lemma PushState(q: Search, done: set<Path>, open: set<Path>, cur: Path, k: nat)
    requires State(q, done, open, cur, k) && cur in done && !Goal(q, cur)
    requires Step(q, cur, k)
    ensures InTree(q, cur + [k])
    ensures cur + [k] !in done ==> State(q, done, open + {cur + [k]}, cur, k + 1)
    ensures cur + [k] in done ==> State(q, done, open, cur, k + 1)
  {
    ChildInTree(q, cur, k);
  }

  lemma SkipState(q: Search, done: set<Path>, open: set<Path>, cur: Path, k: nat)
    requires State(q, done, open, cur, k) && cur in done
    requires !Step(q, cur, k)
    ensures State(q, done, open, cur, k + 1)
  {
  }

  /** Only children of popped sequences have been seen, and of `cur` only those along nodes below `k`. */
  ghost predicate Parents(done: set<Path>, open: set<Path>, cur: Path, k: nat) {
    forall p :: p in done + open && |p| > 1 ==>
      p[..|p| - 1] in done && (p[..|p| - 1] == cur ==> Last(p) < k)
  }

  lemma PopParents(done: set<Path>, open: set<Path>, cur: Path, k: nat, next: Path, k': nat)
    requires Parents(done, open, cur, k) && next in open && next !in done
    ensures Parents(done + {next}, open - {next}, next, k')
  {
  }

  lemma PushParents(done: set<Path>, open: set<Path>, cur: Path, k: nat)
    requires Parents(done, open, cur, k) && cur in done && |cur| > 0
    ensures cur + [k] !in done + open
    ensures Parents(done, open + {cur + [k]}, cur, k + 1)
    ensures Parents(done, open, cur, k + 1)
  {
    var p := cur + [k];
    assert p[..|p| - 1] == cur && Last(p) == k;
  }

  /** Every sequence of the tree has been popped, or has a prefix that is still queued. */
  lemma {:induction false} Cover(q: Search, done: set<Path>, open: set<Path>, cur: Path, p: Path)
    requires State(q, done, open, cur, |q.m|)
    requires InTree(q, p)
    ensures p in done || exists k :: 1 <= k <= |p| && p[..k] in open
    decreases |p|
  {
    assert p[..|p|] == p;
    if |p| == 1 {
      assert p == [q.start];
    } else {
      var parent := p[..|p| - 1];
      Cover(q, done, open, cur, parent);
      if parent in done {
        assert Step(q, parent, Last(p));
        assert Last(p) < |q.m|;
        assert p == parent + [Last(p)];
      } else {
        var k :| 1 <= k <= |parent| && parent[..k] in open;
        assert parent[..k] == p[..k];
      }
    }
  }

  /** What has not been popped is at least as heavy as everything that has been. */
  lemma NothingLighterLeft(q: Search, done: set<Path>, open: set<Path>, cur: Path, p: Path)
    requires State(q, done, open, cur, |q.m|)
    requires InTree(q, p) && p !in done
    ensures open != {}
    ensures forall d :: d in done ==> Rank(q, d) <= Rank(q, p)
  {
    Cover(q, done, open, cur, p);
    var k :| 1 <= k <= |p| && p[..k] in open;
    PrefixInTree(q, p, k);
  }

  // ---------- What the goals are ----------

  /** The goals of a SimplePaths search are exactly the simple paths. */
  lemma {:induction false} SimplePathInTree(m: Matrix, s: nat, t: nat, p: Path)
    requires WellFormed(m) && IsWalk(m, p) && p[0] == s && Simple(p)
    requires forall i :: 0 <= i < |p| - 1 ==> p[i] != t
    ensures InTree(SimplePaths(m, s, t), p)
    decreases |p|
  {
    if |p| > 1 {
      SimplePathInTree(m, s, t, p[..|p| - 1]);
      assert Edge(m, p[|p| - 2], p[|p| - 1]);
    }
  }

  lemma SimpleGoals(m: Matrix, s: nat, t: nat, p: Path)
    requires WellFormed(m) && s < |m|
    ensures SimplePath(m, s, t, p) <==>
            InTree(SimplePaths(m, s, t), p) && Goal(SimplePaths(m, s, t), p)
  {
    var q := SimplePaths(m, s, t);
    if SimplePath(m, s, t, p) {
      SimplePathInTree(m, s, t, p);
    }
    if InTree(q, p) && Goal(q, p) {
      TreeShape(q, p);
      if |p| > 1 {
        var parent := p[..|p| - 1];
        TreeShape(q, parent);
        assert p == parent + [Last(p)];
      }
    }
  }

  /** A closed walk with distinct interior nodes that uses the edge from `a` to `b` and never its reverse. */
  ghost predicate RequiredCycle(m: Matrix, a: nat, b: nat, c: Path)
    requires Square(m)
  {
    && |c| > 1 && IsWalk(m, c) && c[0] == Last(c)
    && Simple(c[..|c| - 1])
    && Uses(c, a, b) && !Uses(c, b, a)
  }

  lemma RequiredCycleLength(m: Matrix, a: nat, b: nat, c: Path)
    requires Square(m) && RequiredCycle(m, a, b, c)
    ensures |c| >= 4 && a != b
  {
    var i :| 0 < i < |c| && c[i - 1] == a && c[i] == b;
  }

  /** Starting the cycle one node later gives such a cycle again. */
  lemma RotateCycle(m: Matrix, a: nat, b: nat, c: Path)
    requires Square(m) && RequiredCycle(m, a, b, c)
    ensures RequiredCycle(m, a, b, c[1..] + [c[1]])
  {
    RequiredCycleLength(m, a, b, c);
    var r := c[1..] + [c[1]];
    var n := |c|;
    assert |r| == n && r[n - 1] == c[1] && r[n - 2] == c[0];
    forall i | 0 < i < n
      ensures Edge(m, r[i - 1], r[i])
      ensures !(r[i - 1] == b && r[i] == a)
    {
      var j := if i < n - 1 then i + 1 else 1;
      assert r[i - 1] == c[j - 1] && r[i] == c[j];
    }
    var k :| 0 < k < n && c[k - 1] == a && c[k] == b;
    var j := if k > 1 then k - 1 else n - 1;
    assert r[j - 1] == a && r[j] == b;
    var s, t := c[..n - 1], r[..n - 1];
    assert forall i :: 0 <= i < n - 2 ==> t[i] == s[i + 1];
    assert t[n - 2] == s[0];
  }

  lemma PrefixUses(p: Path, k: nat, a: nat, b: nat)
    requires k <= |p|
    ensures Uses(p[..k], a, b) ==> Uses(p, a, b)
  {
    if Uses(p[..k], a, b) {
      var i :| 0 < i < k && p[..k][i - 1] == a && p[..k][i] == b;
      assert p[i - 1] == a && p[i] == b;
    }
  }

  lemma {:induction false} SimpleWalkInTree(m: Matrix, s: nat, a: nat, b: nat, p: Path)
    requires WellFormed(m) && IsWalk(m, p) && p[0] == s && Simple(p) && !Uses(p, b, a)
    ensures InTree(RequiredEdge(m, s, a, b), p)
    decreases |p|
  {
    if |p| > 1 {
      var parent := p[..|p| - 1];
      PrefixUses(p, |p| - 1, b, a);
      SimpleWalkInTree(m, s, a, b, parent);
      var i := |p| - 1;
      assert Edge(m, p[i - 1], p[i]) && !(p[i - 1] == b && p[i] == a);
    }
  }

  lemma {:induction false} TreeAvoidsReverse(m: Matrix, s: nat, a: nat, b: nat, p: Path)
    requires WellFormed(m) && s < |m| && InTree(RequiredEdge(m, s, a, b), p)
    ensures !Uses(p, b, a)
    decreases |p|
  {
    if |p| > 1 {
      var parent := p[..|p| - 1];
      TreeAvoidsReverse(m, s, a, b, parent);
      var i := |parent|;
      assert forall j :: 0 < j < i ==> !(p[j - 1] == b && p[j] == a) by {
        assert forall j :: 0 < j < i ==> !(parent[j - 1] == b && parent[j] == a);
      }
    }
  }

  /**
   The goals of a RequiredEdge search from `s` are exactly the required cycles that start at `s`, unless `s` is the
   end of the required edge: then the required edge would have to close the cycle, and the search finds none.
   */
  lemma CycleGoals(m: Matrix, s: nat, a: nat, b: nat, c: Path)
    requires WellFormed(m) && s < |m|
    ensures InTree(RequiredEdge(m, s, a, b), c) && Goal(RequiredEdge(m, s, a, b), c) <==>
            RequiredCycle(m, a, b, c) && c[0] == s && s != b
  {
    var q := RequiredEdge(m, s, a, b);
    if InTree(q, c) && Goal(q, c) {
      GoalIsCycle(m, s, a, b, c);
    }
    if RequiredCycle(m, a, b, c) && c[0] == s && s != b {
      CycleIsGoal(m, s, a, b, c);
    }
  }

  lemma GoalIsCycle(m: Matrix, s: nat, a: nat, b: nat, c: Path)
    requires WellFormed(m) && s < |m|
    requires InTree(RequiredEdge(m, s, a, b), c) && Goal(RequiredEdge(m, s, a, b), c)
    ensures RequiredCycle(m, a, b, c) && c[0] == s && s != b
  {
    var q := RequiredEdge(m, s, a, b);
    var parent := c[..|c| - 1];
    TreeShape(q, c);
    TreeShape(q, parent);
    TreeAvoidsReverse(m, s, a, b, c);
    assert parent[0] == s && Last(c) in parent;
    assert Uses(parent, a, b);
    var i :| 0 < i < |parent| && parent[i - 1] == a && parent[i] == b;
    assert parent[i] != parent[0];
  }

  lemma CycleIsGoal(m: Matrix, s: nat, a: nat, b: nat, c: Path)
    requires WellFormed(m) && s < |m|
    requires RequiredCycle(m, a, b, c) && c[0] == s && s != b
    ensures InTree(RequiredEdge(m, s, a, b), c) && Goal(RequiredEdge(m, s, a, b), c)
  {
    var parent := c[..|c| - 1];
    var i :| 0 < i < |c| && c[i - 1] == a && c[i] == b;
    assert parent[i - 1] == a && parent[i] == b;
    PrefixUses(c, |c| - 1, b, a);
    SimpleWalkInTree(m, s, a, b, parent);
    var n := |c| - 1;
    assert Edge(m, c[n - 1], c[n]) && !(c[n - 1] == b && c[n] == a);
  }
}
