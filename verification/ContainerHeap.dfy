/**
 The contract of Go's container/heap that the searches rely on: Pop removes an element that no other
 element precedes.  The slice layout, and which of several minimal elements comes out, are left open.
 */
module ContainerHeap {

  lemma MinimumExists<T>(pq: seq<T>, rank: T -> real) returns (k: nat)
    requires |pq| > 0
    ensures k < |pq| && forall j :: 0 <= j < |pq| ==> rank(pq[k]) <= rank(pq[j])
  {
    k := 0;
    for i := 1 to |pq|
      invariant k < |pq| && forall j :: 0 <= j < i ==> rank(pq[k]) <= rank(pq[j])
    {
      if rank(pq[i]) < rank(pq[k]) {
        k := i;
      }
    }
  }

  lemma BagMembers<T>(pq: seq<T>, rest: seq<T>, top: T)
    requires multiset(pq) == multiset(rest) + multiset{top}
    ensures top in pq
    ensures forall x :: x in rest ==> x in pq
    ensures forall x :: x in pq ==> x == top || x in rest
  {
    assert top in multiset(pq);
    forall x | x in rest
      ensures x in pq
    {
      assert x in multiset(pq);
    }
    forall x | x in pq
      ensures x == top || x in rest
    {
      assert x in multiset(pq);
    }
  }

  ghost predicate NoDuplicates<T>(pq: seq<T>) {
    forall x :: x in pq ==> multiset(pq)[x] == 1
  }

  lemma PushDistinct<T>(pq: seq<T>, x: T)
    requires NoDuplicates(pq) && x !in pq
    ensures NoDuplicates(pq + [x])
  {
  }

  lemma PopDistinct<T>(pq: seq<T>, top: T, rest: seq<T>)
    requires NoDuplicates(pq) && multiset(pq) == multiset(rest) + multiset{top}
    ensures NoDuplicates(rest) && top !in rest
  {
    assert top in multiset(pq);
    assert multiset(rest)[top] == 0;
    forall x | x in rest
      ensures multiset(rest)[x] == 1
    {
      assert x in multiset(pq) && x in pq;
    }
  }

  /** `rank` turns the queue's Less into a comparison of reals: a precedes b iff rank(a) < rank(b). */
  method Pop<T>(pq: seq<T>, rank: T -> real) returns (top: T, rest: seq<T>)
    requires |pq| > 0
    ensures top in pq
    ensures forall x :: x in pq ==> rank(top) <= rank(x)
    ensures multiset(pq) == multiset(rest) + multiset{top}
    ensures |rest| == |pq| - 1
    ensures forall x :: x in rest ==> x in pq
    ensures forall x :: x in pq ==> x == top || x in rest
  {
    ghost var least := MinimumExists(pq, rank);
    var k :| 0 <= k < |pq| && forall j :: 0 <= j < |pq| ==> rank(pq[k]) <= rank(pq[j]);
    top, rest := pq[k], pq[..k] + pq[k + 1..];
    assert pq == pq[..k] + [top] + pq[k + 1..];
  }
}
