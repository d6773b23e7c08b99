/**
 Next-hop tables: `t[x][d]` is the site to which `x` forwards traffic for `d`; -1 marks an entry not filled yet.
 */
module RouteTables {
  import opened Wrappers
  import opened MapRange

  type Row = map<int, int>

  type Table = map<int, Row>

  const UNSET := -1

  function Hop(t: Table, d: int, x: int): Option<int> {
    if x in t && d in t[x] then Some(t[x][d]) else None
  }

  /** Where `k` hops towards `d` lead from `x`, if every site on the way has an entry for `d`. */
  ghost function Walk(t: Table, d: int, x: int, k: nat): Option<int> {
    if k == 0 then Some(x)
    else
      var y := Walk(t, d, x, k - 1);
      if y.None? then None else Hop(t, d, y.value)
  }

  /** Following the entries for `d` from `x` neither reaches `d` nor ever leaves the table. */
  ghost predicate Loops(t: Table, d: int, x: int) {
    forall k :: Walk(t, d, x, k).Some? && Walk(t, d, x, k).value != d
  }

  lemma {:induction false} WalkFromNext(t: Table, d: int, x: int, y: int, k: nat)
    requires Hop(t, d, x) == Some(y)
    ensures Walk(t, d, x, k + 1) == Walk(t, d, y, k)
  {
    if k > 0 {
      WalkFromNext(t, d, x, y, k - 1);
    } else {
      assert Walk(t, d, x, 0) == Some(x);
    }
  }

  lemma {:induction false} WalkCompose(t: Table, d: int, x: int, i: nat, k: nat)
    requires Walk(t, d, x, i).Some?
    ensures Walk(t, d, x, i + k) == Walk(t, d, Walk(t, d, x, i).value, k)
  {
    if k > 0 {
      WalkCompose(t, d, x, i, k - 1);
    }
  }

  /** A set of sites that forward for `d` only among themselves, `d` not being one of them, is a loop. */
  lemma ClosedSetLoops(t: Table, d: int, trap: set<int>, x: int)
    requires x in trap && d !in trap
    requires forall y :: y in trap ==> Hop(t, d, y).Some? && Hop(t, d, y).value in trap
    ensures Loops(t, d, x)
  {
    forall k: nat
      ensures Walk(t, d, x, k).Some? && Walk(t, d, x, k).value in trap
    {
      StaysIn(t, d, trap, x, k);
    }
  }

  lemma {:induction false} StaysIn(t: Table, d: int, trap: set<int>, x: int, k: nat)
    requires x in trap && forall y :: y in trap ==> Hop(t, d, y).Some? && Hop(t, d, y).value in trap
    ensures Walk(t, d, x, k).Some? && Walk(t, d, x, k).value in trap
  {
    if k > 0 {
      StaysIn(t, d, trap, x, k - 1);
    }
  }

  // ---------- The loop check ----------

  /** The chain of hops for `d` from its first site to its last. */
  ghost predicate Trail(t: Table, d: int, trail: seq<int>) {
    && |trail| > 0
    && (forall i :: 0 <= i < |trail| ==> trail[i] != d)
    && (forall i :: 0 < i < |trail| ==> Hop(t, d, trail[i - 1]) == Some(trail[i]))
  }

  lemma {:induction false} TrailIsWalk(t: Table, d: int, trail: seq<int>, i: nat)
    requires Trail(t, d, trail) && i < |trail|
    ensures Walk(t, d, trail[0], i) == Some(trail[i])
  {
    if i > 0 {
      TrailIsWalk(t, d, trail, i - 1);
    }
  }

  /** The walk of checkForLoops from the next hop `via` of one entry for `dst`. */
  method ChainLoops(t: Table, dst: int, via: int) returns (loop: bool)
    requires via != dst
    ensures loop <==> Loops(t, dst, via)
  {
    var visited: set<int> := {};
    var currentVia := via;
    ghost var trail := [via];
    while true
      invariant Trail(t, dst, trail) && trail[0] == via && trail[|trail| - 1] == currentVia
      invariant via in visited || via == currentVia
      invariant currentVia !in visited && dst !in visited
      invariant forall y :: y in visited ==>
                  Hop(t, dst, y).Some? && (Hop(t, dst, y).value in visited || Hop(t, dst, y).value == currentVia)
      decreases t.Keys - visited
    {
      TrailIsWalk(t, dst, trail, |trail| - 1);
      ghost var before := visited;
      visited := visited + {currentVia};
      var next := Hop(t, dst, currentVia);
      if next.None? {
        assert Walk(t, dst, via, |trail|).None?;
        return false;
      }
      if next.value in visited {
        ClosedSetLoops(t, dst, visited, via);
        return true;
      }
      if next.value == dst {
        assert Walk(t, dst, via, |trail|) == Some(dst);
        return false;
      }
      assert currentVia in t.Keys - before;
      trail := trail + [next.value];
      currentVia := next.value;
    }
  }

  /** An entry whose next hop starts a loop. */
  ghost predicate BadEntry(t: Table, s: int, d: int) {
    s in t && d in t[s] && t[s][d] != d && Loops(t, d, t[s][d])
  }

  /**
   checkForLoops: the maps are ranged over in any order.  An entry is reported if and only if the table
   has a looping entry, and the one reported is such an entry.
   */
  method CheckForLoops(t: Table) returns (loop: Option<(int, int)>)
    ensures loop.Some? <==> exists s, d :: BadEntry(t, s, d)
    ensures loop.Some? ==> BadEntry(t, loop.value.0, loop.value.1)
  {
    var sources := t.Keys;
    while sources != {}
      invariant sources <= t.Keys
      invariant forall s, d :: s in t && s !in sources ==> !BadEntry(t, s, d)
      decreases sources
    {
      var source;
      source, sources := NextKey(sources);
      var dsts := t[source].Keys;
      while dsts != {}
        invariant dsts <= t[source].Keys
        invariant forall d :: d in t[source] && d !in dsts ==> !BadEntry(t, source, d)
        decreases dsts
      {
        var dst;
        dst, dsts := NextKey(dsts);
        var via := t[source][dst];
        if dst != via {
          var b := ChainLoops(t, dst, via);
          if b {
            assert BadEntry(t, source, dst);
            return Some((source, dst));
          }
        }
      }
    }
    return None;
  }

  // ---------- Delivery ----------

  /** Every row has an entry for exactly the sites of the table. */
  ghost predicate FullRows(t: Table) {
    forall x, d {:trigger d in t[x]} :: x in t ==> (d in t[x] <==> d in t)
  }

  /** Every site has an entry for every site, and every entry names a site. */
  ghost predicate Complete(t: Table) {
    && FullRows(t)
    && (forall x, d {:trigger t[x][d]} :: x in t && d in t ==> t[x][d] in t)
    && (forall x {:trigger t[x][x]} :: x in t ==> t[x][x] == x)
  }

  /** From every site, traffic for every site arrives after fewer hops than there are sites. */
  ghost predicate Delivers(t: Table) {
    forall s, d :: s in t && d in t ==> exists k: nat :: k < |t| && Walk(t, d, s, k) == Some(d)
  }

  lemma {:induction false} CompleteWalk(t: Table, d: int, s: int, k: nat)
    requires Complete(t) && s in t && d in t
    ensures Walk(t, d, s, k).Some? && Walk(t, d, s, k).value in t
  {
    if k > 0 {
      CompleteWalk(t, d, s, k - 1);
    }
  }

  ghost predicate FirstArrival(t: Table, d: int, s: int, k: nat) {
    Walk(t, d, s, k) == Some(d) && forall i: nat :: i < k ==> Walk(t, d, s, i) != Some(d)
  }

  lemma {:induction false} FindFirstArrival(t: Table, d: int, s: int, n: nat) returns (k: nat)
    requires Walk(t, d, s, n) == Some(d)
    ensures FirstArrival(t, d, s, k)
  {
    if i: nat :| i < n && Walk(t, d, s, i) == Some(d) {
      k := FindFirstArrival(t, d, s, i);
    } else {
      k := n;
    }
  }

  lemma {:induction false} DistinctWithin(q: seq<int>, all: set<int>)
    requires forall i, j :: 0 <= i < j < |q| ==> q[i] != q[j]
    requires forall i :: 0 <= i < |q| ==> q[i] in all
    ensures |q| <= |all|
  {
    if |q| > 0 {
      DistinctWithin(q[1..], all - {q[0]});
    }
  }

  /** Until it first arrives, a walk passes no site twice. */
  lemma FirstArrivalIsShort(t: Table, d: int, s: int, k: nat)
    requires Complete(t) && s in t && d in t && FirstArrival(t, d, s, k)
    ensures k < |t|
  {
    forall i: nat
      ensures Walk(t, d, s, i).Some? && Walk(t, d, s, i).value in t
    {
      CompleteWalk(t, d, s, i);
    }
    var q := seq(k + 1, i requires 0 <= i => Walk(t, d, s, i).value);
    forall i, j | 0 <= i < j < |q|
      ensures q[i] != q[j]
    {
      NoReturn(t, d, s, k, i, j);
    }
    DistinctWithin(q, t.Keys);
  }

  lemma NoReturn(t: Table, d: int, s: int, k: nat, i: nat, j: nat)
    requires FirstArrival(t, d, s, k) && i < j <= k
    requires Walk(t, d, s, i).Some? && Walk(t, d, s, j).Some?
    ensures Walk(t, d, s, i) != Walk(t, d, s, j)
  {
    WalkCompose(t, d, s, i, k - j);
    WalkCompose(t, d, s, j, k - j);
    assert j + (k - j) == k && i + (k - j) < k;
  }

  /** A complete table that passes the loop check delivers everywhere. */
  lemma LoopFreeDelivers(t: Table)
    requires Complete(t) && forall s, d :: !BadEntry(t, s, d)
    ensures Delivers(t)
  {
    forall s, d | s in t && d in t
      ensures exists k: nat :: k < |t| && Walk(t, d, s, k) == Some(d)
    {
      var via := t[s][d];
      var n: nat := 1;
      assert Walk(t, d, s, 0) == Some(s);
      if via == d {
        assert Walk(t, d, s, 1) == Some(d);
      } else {
        assert !BadEntry(t, s, d);
        var k: nat :| !(Walk(t, d, via, k).Some? && Walk(t, d, via, k).value != d);
        CompleteWalk(t, d, via, k);
        WalkFromNext(t, d, s, via, k);
        n := k + 1;
      }
      var k := FindFirstArrival(t, d, s, n);
      FirstArrivalIsShort(t, d, s, k);
    }
  }

  /** A complete table with a looping entry does not deliver: the loop check is needed, and never too strict. */
  lemma DeliversIffLoopFree(t: Table)
    requires Complete(t)
    ensures Delivers(t) <==> forall s, d :: !BadEntry(t, s, d)
  {
    if forall s, d :: !BadEntry(t, s, d) {
      LoopFreeDelivers(t);
    }
    if Delivers(t) {
      forall s, d
        ensures !BadEntry(t, s, d)
      {
        if s in t && d in t[s] {
          var via := t[s][d];
          var k: nat :| k < |t| && Walk(t, d, via, k) == Some(d);
        }
      }
    }
  }
}
