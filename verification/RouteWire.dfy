/** A row of the table on its way to a site: map lookups, and the int32 conversions of the wire format. */
module RouteWire {
  import opened Wrappers
  import opened RouteTables
  import opened MapRange

  /** A Go map lookup: a missing key reads as zero. */
  function Lookup(routes: Row, d: int): int {
    if d in routes then routes[d] else 0
  }

  /** `routes` answers every lookup as `row` does, and has no destination that `row` lacks. */
  ghost predicate Installs(routes: Row, row: Row) {
    (forall d :: Lookup(routes, d) == Lookup(row, d)) && forall d :: d in routes ==> d in row
  }

  /** Installed routes have no entry that the row lacks or contradicts; entries for next hop 0 may be missing. */
  lemma InstallsIff(routes: Row, row: Row)
    ensures Installs(routes, row) <==>
              && (forall d :: d in routes ==> d in row && routes[d] == row[d])
              && (forall d :: d in row && d !in routes ==> row[d] == 0)
  {
    if Installs(routes, row) {
      forall d
        ensures d in routes ==> d in row && routes[d] == row[d]
        ensures d in row && d !in routes ==> row[d] == 0
      {
        assert Lookup(routes, d) == Lookup(row, d);
      }
    }
  }

  /** The conversion int32(x): two's complement truncation. */
  function Int32(x: int): (r: int)
    ensures -0x8000_0000 <= r < 0x8000_0000
    ensures -0x8000_0000 <= x < 0x8000_0000 ==> r == x
    ensures (x - r) % 0x1_0000_0000 == 0
  {
    (x + 0x8000_0000) % 0x1_0000_0000 - 0x8000_0000
  }

  predicate InInt32(row: Row) {
    forall d :: d in row ==> Int32(d) == d && Int32(row[d]) == row[d]
  }

  /** The entry of `out` for `o` is the truncation of an entry of `row`. */
  ghost predicate Source(row: Row, out: Row, o: int)
    requires o in out
  {
    exists d :: d in row && Int32(d) == o && Int32(row[d]) == out[o]
  }

  lemma InRangeSource(row: Row, out: Row, o: int)
    requires o in out && Source(row, out, o)
    ensures Int32(o) == o && Int32(out[o]) == out[o]
  {
    var d :| d in row && Int32(d) == o && Int32(row[d]) == out[o];
    Int32Idempotent(d);
    Int32Idempotent(row[d]);
  }

  /**
   Every entry of `out` is the truncation of an entry of `row`, and every entry of `row` is there under its
   truncated key.
   */
  ghost predicate Truncates(row: Row, out: Row) {
    && (forall o :: o in out ==> Source(row, out, o))
    && (forall d :: d in row ==> Int32(d) in out)
  }

  /** Keys that truncate to the same number overwrite each other, in whatever order the map is ranged over. */
  method ConvertToInt32Map(input: Row) returns (output: Row)
    ensures Truncates(input, output)
  {
    output := map[];
    var left := input.Keys;
    while left != {}
      invariant left <= input.Keys
      invariant forall o :: o in output ==> Source(input, output, o)
      invariant forall d :: d in input && d !in left ==> Int32(d) in output
      decreases left
    {
      var k;
      k, left := NextKey(left);
      output := output[Int32(k) := Int32(input[k])];
    }
  }

  /** The widening conversion int(x) changes no key and no value. */
  method ConvertToIntMap(route: Row) returns (routeInt: Row)
    ensures routeInt == route
  {
    routeInt := CopyMap(route);
  }

  /** The wire format carries a row faithfully if and only if all its keys and values are 32-bit numbers. */
  lemma FaithfulIffInInt32(row: Row, out: Row)
    requires Truncates(row, out)
    ensures out == row <==> InInt32(row)
  {
    hide Int32;
    if InInt32(row) {
      FaithfulInRange(row, out);
    }
    if out == row {
      OnlyFaithfulInRange(row);
    }
  }

  lemma OnlyFaithfulInRange(row: Row)
    requires Truncates(row, row)
    ensures InInt32(row)
  {
    hide Int32, Source;
    forall d | d in row
      ensures Int32(d) == d && Int32(row[d]) == row[d]
    {
      InRangeSource(row, row, d);
    }
  }

  lemma FaithfulInRange(row: Row, out: Row)
    requires Truncates(row, out) && InInt32(row)
    ensures out == row
  {
    hide Int32;
    forall o | o in out
      ensures o in row && out[o] == row[o]
    {
      var d :| d in row && Int32(d) == o && Int32(row[d]) == out[o];
    }
    forall d | d in row
      ensures d in out
    {
      assert Int32(d) in out;
    }
    assert out.Keys == row.Keys;
  }

  lemma Int32Idempotent(x: int)
    ensures Int32(Int32(x)) == Int32(x)
  {
  }

  // ---------- Forwarding with the installed rows ----------

  /** Where `k` hops lead when every site forwards by a lookup in its own installed routes. */
  ghost function Forwarded(installed: map<int, Row>, d: int, x: int, k: nat): int
  {
    if k == 0 then x
    else
      var y := Forwarded(installed, d, x, k - 1);
      if y in installed then Lookup(installed[y], d) else y
  }

  lemma {:induction false} ForwardedIsWalk(t: Table, installed: map<int, Row>, d: int, x: int, k: nat)
    requires Complete(t) && x in t && d in t
    requires forall s :: s in t ==> s in installed && Installs(installed[s], t[s])
    ensures Walk(t, d, x, k) == Some(Forwarded(installed, d, x, k))
    ensures Forwarded(installed, d, x, k) in t
  {
    if k > 0 {
      ForwardedIsWalk(t, installed, d, x, k - 1);
    }
  }

  /** Delivery carries over from the leader's table to the installed ones. */
  lemma InstalledDelivers(t: Table, installed: map<int, Row>, s: int, d: int) returns (k: nat)
    requires Complete(t) && Delivers(t) && s in t && d in t
    requires forall x :: x in t ==> x in installed && Installs(installed[x], t[x])
    ensures k < |t| && Forwarded(installed, d, s, k) == d
  {
    k :| k < |t| && Walk(t, d, s, k) == Some(d);
    ForwardedIsWalk(t, installed, d, s, k);
  }
}
