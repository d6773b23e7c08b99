/** The priority queue of the shortest-path search. */
module PriorityQueues {
  import opened Labels
  import ContainerHeap

  /** A queued route with its position in the heap's slice. */
  datatype QueueItem = QueueItem(route: Route, index: int)

  function Routes(items: seq<QueueItem>): (r: seq<Route>)
    ensures |r| == |items| && forall i :: 0 <= i < |r| ==> r[i] == items[i].route
  {
    seq(|items|, i requires 0 <= i < |items| => items[i].route)
  }

  predicate Before(a: QueueItem, b: QueueItem) {
    a.route.distance > b.route.distance
  }

  predicate IsFirst(items: seq<QueueItem>, k: nat)
    requires k < |items|
  {
    forall j :: 0 <= j < |items| ==> !Before(items[j], items[k])
  }

  lemma FirstIsLargest(items: seq<QueueItem>, k: nat)
    requires k < |items| && IsFirst(items, k)
    ensures forall x :: x in Routes(items) ==> x.distance <= items[k].route.distance
  {
    forall x | x in Routes(items)
      ensures x.distance <= items[k].route.distance
    {
      var j :| 0 <= j < |items| && Routes(items)[j] == x;
      assert !Before(items[j], items[k]);
    }
  }

  class PriorityQueue {
    var items: seq<QueueItem>

    /** Every item knows its position. */
    ghost predicate Valid()
      reads this
    {
      forall i :: 0 <= i < |items| ==> items[i].index == i
    }

    ghost function Content(): seq<Route>
      reads this
    {
      Routes(items)
    }

    constructor ()
      ensures Valid() && Content() == []
    {
      items := [];
    }

    /** Reversed: the item with the larger distance comes first. */
    predicate Less(i: nat, j: nat)
      requires i < |items| && j < |items|
      reads this
    {
      Before(items[i], items[j])
    }

    method Swap(i: nat, j: nat)
      requires Valid() && i < |items| && j < |items|
      modifies this
      ensures Valid()
      ensures Content() == old(Content())[i := old(Content())[j]][j := old(Content())[i]]
    {
      items := items[i := items[j]][j := items[i]];
      items := items[i := items[i].(index := i)];
      items := items[j := items[j].(index := j)];
    }

    method Push(x: Route)
      requires Valid()
      modifies this
      ensures Valid() && Content() == old(Content()) + [x]
    {
      items := items + [QueueItem(x, |items|)];
    }

    method Pop() returns (item: QueueItem)
      requires Valid() && |items| > 0
      modifies this
      ensures Valid() && Content() == old(Content())[..|old(items)| - 1]
      ensures item == QueueItem(old(Content())[|old(items)| - 1], -1)
    {
      var n := |items|;
      item := items[n - 1].(index := -1);
      items := items[..n - 1];
    }

    /**
     heap.Pop by its contract: some item that no other is Less than is swapped to the end and popped.  Which one,
     among equals, and in what order the others end up in the slice, is container/heap's business.
     */
    method HeapPop() returns (top: Route)
      requires Valid() && |items| > 0
      modifies this
      ensures Valid()
      ensures top in old(Content()) && forall x :: x in old(Content()) ==> x.distance <= top.distance
      ensures multiset(old(Content())) == multiset(Content()) + multiset{top}
      ensures |items| == |old(items)| - 1
    {
      var k := First();
      var n := |items| - 1;
      SwapOut(Content(), k);
      Swap(k, n);
      var item := Pop();
      top := item.route;
    }

    /** Some item that no other is Less than. */
    method First() returns (k: nat)
      requires |items| > 0
      ensures k < |items|
      ensures forall x :: x in Content() ==> x.distance <= Content()[k].distance
    {
      ghost var least := ContainerHeap.MinimumExists(items, (x: QueueItem) => -x.route.distance);
      assert IsFirst(items, least);
      k :| k < |items| && IsFirst(items, k);
      FirstIsLargest(items, k);
    }
  }

  lemma SwapOut(q: seq<Route>, k: nat)
    requires k < |q|
    ensures var n := |q| - 1;
            multiset(q) == multiset(q[k := q[n]][n := q[k]][..n]) + multiset{q[k]}
  {
    var n := |q| - 1;
    var swapped := q[k := q[n]][n := q[k]];
    assert swapped == swapped[..n] + [q[k]];
    assert multiset(swapped) == multiset(q);
  }
}
