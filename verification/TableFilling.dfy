/**
 Filling the next-hop table greedily.  Each pair of sites offers candidate round trips; a candidate is written
 hop by hop until it clashes with an entry already there.  A candidate that clashes leaves behind what
 it has written.
 */
module TableFilling {
  import opened Wrappers
  import opened Graphs
  import opened RouteTables
  import ContainerHeap

  /** A measured round trip: forward path and return path joined at the target. */
  datatype Ranked = Ranked(forwardRank: nat, returnRank: nat, latency: int, path: Path)

  /** All rows have all sites as keys; every filled entry names a site; a site's entry for itself is itself. */
  ghost predicate Consistent(t: Table) {
    && UNSET !in t
    && FullRows(t)
    && (forall x, d {:trigger t[x][d]} :: x in t && d in t && t[x][d] != UNSET ==> t[x][d] in t)
    && (forall x {:trigger t[x][x]} :: x in t && t[x][x] != UNSET ==> t[x][x] == x)
  }

  ghost predicate SameSites(t: Table, t': Table) {
    forall x :: x in t <==> x in t'
  }

  /** `t'` has the entries of `t`, and possibly more: an entry once filled never changes. */
  ghost predicate Grows(t: Table, t': Table) {
    && SameSites(t, t') && FullRows(t) && FullRows(t')
    && (forall x, d {:trigger t[x][d]} {:trigger t'[x][d]} ::
          x in t && d in t && t[x][d] != UNSET ==> t'[x][d] == t[x][d])
  }

  /** `p` leads from `site` to `target`, reached at index `mid`, and back, each leg without repetition. */
  ghost predicate RoundTrip(t: Table, site: int, target: int, p: Path, mid: nat) {
    && 0 < mid < |p| - 1
    && p[0] == site == p[|p| - 1] && p[mid] == target
    && Simple(p[..mid + 1]) && Simple(p[mid..])
    && forall i :: 0 <= i < |p| ==> p[i] in t
  }

  /** The destination that hop `i` of a round trip serves: the target on the way out, the site on the way back. */
  function Dest(site: int, target: int, mid: nat, i: nat): int {
    if i < mid then target else site
  }

  /** Hop `i` of the round trip agrees with the table. */
  predicate FitsAt(t: Table, site: int, target: int, p: Path, mid: nat, i: nat)
    requires i + 1 < |p|
  {
    var d := Dest(site, target, mid, i);
    p[i] in t && d in t[p[i]] && (t[p[i]][d] == UNSET || t[p[i]][d] == p[i + 1])
  }

  /** No hop of the round trip contradicts the table.  The last hop, back to the site, is never looked at. */
  predicate Fits(t: Table, site: int, target: int, p: Path, mid: nat)
  {
    forall i: nat :: i < |p| - 2 ==> FitsAt(t, site, target, p, mid, i)
  }

  predicate WrittenAt(t: Table, site: int, target: int, p: Path, mid: nat, i: nat)
    requires i + 1 < |p|
  {
    var d := Dest(site, target, mid, i);
    p[i] in t && d in t[p[i]] && t[p[i]][d] == p[i + 1]
  }

  /** Every hop of the round trip but the last is in the table. */
  predicate Installed(t: Table, site: int, target: int, p: Path, mid: nat)
  {
    forall i: nat :: i < |p| - 2 ==> WrittenAt(t, site, target, p, mid, i)
  }

  /** The entry of `x` for `d` is one that the first `k` hops of the round trip write. */
  predicate IsSlot(site: int, target: int, p: Path, mid: nat, k: nat, x: int, d: int)
    requires k < |p|
  {
    exists i: nat :: i < k && p[i] == x && Dest(site, target, mid, i) == d
  }

  /** The hops of a round trip write different entries, and never a site's entry for itself. */
  lemma SlotsDiffer(t: Table, site: int, target: int, p: Path, mid: nat, i: nat)
    requires site != target && RoundTrip(t, site, target, p, mid) && i < |p| - 2
    ensures !IsSlot(site, target, p, mid, i, p[i], Dest(site, target, mid, i))
    ensures p[i] != Dest(site, target, mid, i)
  {
    LegsDistinct(t, site, target, p, mid);
  }

  lemma LegsDistinct(t: Table, site: int, target: int, p: Path, mid: nat)
    requires RoundTrip(t, site, target, p, mid)
    ensures forall i, j :: 0 <= i < j <= mid ==> p[i] != p[j]
    ensures forall i, j :: mid <= i < j < |p| ==> p[i] != p[j]
  {
    var out, back := p[..mid + 1], p[mid..];
    forall i, j | 0 <= i < j <= mid
      ensures p[i] != p[j]
    {
      assert out[i] != out[j];
    }
    forall i, j | mid <= i < j < |p|
      ensures p[i] != p[j]
    {
      assert back[i - mid] != back[j - mid];
    }
  }

  lemma ClashStays(t: Table, t': Table, site: int, target: int, p: Path, mid: nat)
    requires Grows(t, t') && RoundTrip(t, site, target, p, mid)
    ensures !Fits(t, site, target, p, mid) ==> !Fits(t', site, target, p, mid)
  {
    if !Fits(t, site, target, p, mid) {
      var i: nat :| i < |p| - 2 && !FitsAt(t, site, target, p, mid, i);
      assert !FitsAt(t', site, target, p, mid, i);
    }
  }

  lemma InstalledSurvives(t: Table, t': Table, site: int, target: int, p: Path, mid: nat)
    requires Grows(t, t') && Installed(t, site, target, p, mid)
    ensures Installed(t', site, target, p, mid)
  {
    forall i: nat | i < |p| - 2
      ensures WrittenAt(t', site, target, p, mid, i)
    {
      assert WrittenAt(t, site, target, p, mid, i);
    }
  }

  lemma GrowsTransitive(a: Table, b: Table, c: Table)
    requires Grows(a, b) && Grows(b, c)
    ensures Grows(a, c)
  {
  }

  /** `t[x][d] = v` on the nested maps. */
  function Put(t: Table, x: int, d: int, v: int): (r: Table)
    requires x in t && d in t[x]
    ensures SameSites(t, r)
    ensures forall y, e {:trigger e in r[y]} :: y in t ==> (e in r[y] <==> e in t[y])
    ensures r[x][d] == v
    ensures forall y, e {:trigger r[y][e]} :: y in t && e in t[y] && !(y == x && e == d) ==> r[y][e] == t[y][e]
  {
    t[x := t[x][d := v]]
  }

  lemma WriteKeepsConsistent(t: Table, x: int, d: int, v: int)
    requires Consistent(t) && x in t && d in t && v in t && x != d
    requires t[x][d] == UNSET || t[x][d] == v
    ensures Consistent(Put(t, x, d, v)) && Grows(t, Put(t, x, d, v))
  {
    hide Put;
  }

  lemma WriteSelf(t: Table, x: int)
    requires Consistent(t) && x in t && x in t[x] && t[x][x] == UNSET
    ensures Consistent(Put(t, x, x, x)) && Grows(t, Put(t, x, x, x))
  {
    hide Put;
  }

  /** The first `k` hops of the round trip are in the table. */
  ghost predicate WrittenTo(t: Table, site: int, target: int, p: Path, mid: nat, k: nat)
    requires k < |p|
  {
    forall j: nat :: j < k ==> WrittenAt(t, site, target, p, mid, j)
  }

  ghost predicate FitsTo(t: Table, site: int, target: int, p: Path, mid: nat, k: nat)
    requires k < |p|
  {
    forall j: nat :: j < k ==> FitsAt(t, site, target, p, mid, j)
  }

  /** Only the entries of the first `k` hops differ between the tables. */
  ghost predicate Untouched(t: Table, now: Table, site: int, target: int, p: Path, mid: nat, k: nat)
    requires k < |p|
    requires SameSites(t, now) && FullRows(t) && FullRows(now)
  {
    forall x, d {:trigger now[x][d]} ::
      x in t && d in t && !IsSlot(site, target, p, mid, k, x, d) ==> now[x][d] == t[x][d]
  }

  /** The first `i` hops of a round trip that fits so far have been written into `t`, and nothing else. */
  ghost predicate Placing(t: Table, now: Table, site: int, target: int, p: Path, mid: nat, i: nat)
    requires i + 1 < |p|
  {
    && Consistent(now) && Grows(t, now)
    && WrittenTo(now, site, target, p, mid, i)
    && FitsTo(t, site, target, p, mid, i)
    && Untouched(t, now, site, target, p, mid, i)
  }

  lemma PlacingClash(t: Table, now: Table, site: int, target: int, p: Path, mid: nat, i: nat)
    requires site != target && RoundTrip(t, site, target, p, mid) && i < |p| - 2
    requires Placing(t, now, site, target, p, mid, i) && !FitsAt(now, site, target, p, mid, i)
    ensures !FitsAt(t, site, target, p, mid, i)
    ensures !Fits(t, site, target, p, mid) && !Fits(now, site, target, p, mid)
  {
    SlotsDiffer(t, site, target, p, mid, i);
  }

  lemma PlacingWrite(t: Table, now: Table, site: int, target: int, p: Path, mid: nat, i: nat)
    requires site != target && RoundTrip(t, site, target, p, mid) && i < |p| - 2
    requires Placing(t, now, site, target, p, mid, i) && FitsAt(now, site, target, p, mid, i)
    ensures p[i] in now && Dest(site, target, mid, i) in now[p[i]]
    ensures Placing(t, Put(now, p[i], Dest(site, target, mid, i), p[i + 1]), site, target, p, mid, i + 1)
  {
    hide Put, IsSlot, Simple, WrittenTo, FitsTo, Untouched;
    var d := Dest(site, target, mid, i);
    SlotsDiffer(t, site, target, p, mid, i);
    WriteKeepsConsistent(now, p[i], d, p[i + 1]);
    GrowsTransitive(t, now, Put(now, p[i], d, p[i + 1]));
    WriteHop(t, now, site, target, p, mid, i);
    WriteRest(t, now, site, target, p, mid, i);
    FitOneMore(t, now, site, target, p, mid, i);
  }

  lemma WriteHop(t: Table, now: Table, site: int, target: int, p: Path, mid: nat, i: nat)
    requires i < |p| - 2 && FitsAt(now, site, target, p, mid, i)
    requires WrittenTo(now, site, target, p, mid, i)
    ensures WrittenTo(Put(now, p[i], Dest(site, target, mid, i), p[i + 1]), site, target, p, mid, i + 1)
  {
    var after := Put(now, p[i], Dest(site, target, mid, i), p[i + 1]);
    forall j: nat | j < i + 1
      ensures WrittenAt(after, site, target, p, mid, j)
    {
      hide Put;
      assert j < i ==> WrittenAt(now, site, target, p, mid, j);
    }
  }

  lemma FitOneMore(t: Table, now: Table, site: int, target: int, p: Path, mid: nat, i: nat)
    requires i < |p| - 2 && FitsAt(now, site, target, p, mid, i) && FitsTo(t, site, target, p, mid, i)
    requires SameSites(t, now) && FullRows(t) && FullRows(now)
    requires p[i] in t && Dest(site, target, mid, i) in t
    requires Untouched(t, now, site, target, p, mid, i)
    requires !IsSlot(site, target, p, mid, i, p[i], Dest(site, target, mid, i))
    ensures FitsTo(t, site, target, p, mid, i + 1)
  {
    var d := Dest(site, target, mid, i);
    assert now[p[i]][d] == t[p[i]][d];
  }

  lemma WriteRest(t: Table, now: Table, site: int, target: int, p: Path, mid: nat, i: nat)
    requires i < |p| - 2 && FitsAt(now, site, target, p, mid, i)
    requires SameSites(t, now) && FullRows(t) && FullRows(now)
    requires Untouched(t, now, site, target, p, mid, i)
    ensures Untouched(t, Put(now, p[i], Dest(site, target, mid, i), p[i + 1]), site, target, p, mid, i + 1)
  {
    hide Put;
    forall x, d | x in t && d in t && !IsSlot(site, target, p, mid, i + 1, x, d)
      ensures Put(now, p[i], Dest(site, target, mid, i), p[i + 1])[x][d] == t[x][d]
    {
      assert !IsSlot(site, target, p, mid, i, x, d);
      assert p[i] == x ==> Dest(site, target, mid, i) != d;
    }
  }

  lemma PlacingEnd(t: Table, now: Table, site: int, target: int, p: Path, mid: nat)
    requires |p| >= 2 && Placing(t, now, site, target, p, mid, |p| - 2)
    ensures Fits(t, site, target, p, mid) && Installed(now, site, target, p, mid)
  {
  }

  /**
   The body of the selection loop for one candidate.  It succeeds if and only if the candidate fits the table it
   finds.  Either way the entries changed are exactly those of the first `k` hops, the hops before the
   first clash.
   */
  method TryCandidate(t: Table, site: int, target: int, bestPath: Path, ghost mid0: nat)
    returns (t': Table, success: bool, ghost k: nat)
    requires Consistent(t) && site != target && RoundTrip(t, site, target, bestPath, mid0)
    ensures k <= |bestPath| - 2 && Placing(t, t', site, target, bestPath, mid0, k)
    ensures success <==> Fits(t, site, target, bestPath, mid0)
    ensures success ==> k == |bestPath| - 2 && Installed(t', site, target, bestPath, mid0)
    ensures !success ==> k < |bestPath| - 2 && !FitsAt(t, site, target, bestPath, mid0, k)
    ensures !success ==> !Fits(t', site, target, bestPath, mid0)
  {
    hide Placing, Fits, Installed, Put, Consistent, RoundTrip;
    var mid := FindMid(bestPath, target);
    MidIsFirst(t, site, target, bestPath, mid0, mid);
    t' := t;
    k := 0;
    StartPlacing(t, site, target, bestPath, mid0);
    for i := 0 to |bestPath| - 2
      invariant k == i
      invariant Placing(t, t', site, target, bestPath, mid0, i)
    {
      HopEntries(t, t', site, target, bestPath, mid0, i);
      if !FitsAt(t', site, target, bestPath, mid0, i) {
        PlacingClash(t, t', site, target, bestPath, mid0, i);
      } else {
        PlacingWrite(t, t', site, target, bestPath, mid0, i);
      }
      if i < mid {
        if t'[bestPath[i]][target] != UNSET && t'[bestPath[i]][target] != bestPath[i + 1] {
          return t', false, k;
        }
        t' := Put(t', bestPath[i], target, bestPath[i + 1]);
      } else {
        if t'[bestPath[i]][site] != UNSET && t'[bestPath[i]][site] != bestPath[i + 1] {
          return t', false, k;
        }
        t' := Put(t', bestPath[i], site, bestPath[i + 1]);
      }
      k := k + 1;
    }
    PlacingEnd(t, t', site, target, bestPath, mid0);
    success := true;
  }

  lemma StartPlacing(t: Table, site: int, target: int, p: Path, mid: nat)
    requires Consistent(t) && RoundTrip(t, site, target, p, mid)
    ensures |p| >= 3
    ensures Placing(t, t, site, target, p, mid, 0)
  {
  }

  lemma HopEntries(t: Table, now: Table, site: int, target: int, p: Path, mid: nat, i: nat)
    requires RoundTrip(t, site, target, p, mid) && i < |p| - 2
    requires Placing(t, now, site, target, p, mid, i)
    ensures p[i] in now && site in now[p[i]] && target in now[p[i]]
  {
  }

  /** Find the middle site: the first position of `target`. */
  method FindMid(bestPath: Path, target: int) returns (mid: int)
    ensures -1 <= mid < |bestPath|
    ensures mid == -1 <==> target !in bestPath
    ensures mid >= 0 ==> bestPath[mid] == target && forall i :: 0 <= i < mid ==> bestPath[i] != target
  {
    for i := 0 to |bestPath|
      invariant forall j :: 0 <= j < i ==> bestPath[j] != target
    {
      if bestPath[i] == target {
        return i;
      }
    }
    return -1;
  }

  lemma MidIsFirst(t: Table, site: int, target: int, p: Path, mid: nat, found: int)
    requires RoundTrip(t, site, target, p, mid)
    requires found == -1 ==> target !in p
    requires -1 <= found < |p|
    requires found >= 0 ==> p[found] == target && forall i :: 0 <= i < found ==> p[i] != target
    ensures found == mid
  {
    assert p[mid] in p;
    LegsDistinct(t, site, target, p, mid);
  }

  /** The position at which a round trip first meets its target. */
  function Mid(p: Path, target: int): nat {
    if p == [] then 0 else if p[0] == target then 0 else 1 + Mid(p[1..], target)
  }

  lemma {:induction false} MidAt(p: Path, target: int, mid: nat)
    requires mid < |p| && p[mid] == target && forall i :: 0 <= i < mid ==> p[i] != target
    ensures Mid(p, target) == mid
  {
    if mid > 0 {
      MidAt(p[1..], target, mid - 1);
    }
  }

  ghost predicate Trip(t: Table, site: int, target: int, p: Path) {
    RoundTrip(t, site, target, p, Mid(p, target))
  }

  ghost predicate TripFits(t: Table, site: int, target: int, p: Path) {
    Fits(t, site, target, p, Mid(p, target))
  }

  ghost predicate TripInstalled(t: Table, site: int, target: int, p: Path) {
    Installed(t, site, target, p, Mid(p, target))
  }

  /** `best` is in the table, and every candidate measured as faster contradicts the table. */
  ghost predicate FastestFitting(t: Table, site: int, target: int, best: Ranked, results: seq<Ranked>) {
    && best in results
    && TripInstalled(t, site, target, best.path)
    && forall c :: c in results && c.latency < best.latency ==> !TripFits(t, site, target, c.path)
  }

  lemma FastestSurvives(t: Table, t': Table, site: int, target: int, best: Ranked, results: seq<Ranked>)
    requires Grows(t, t') && FastestFitting(t, site, target, best, results)
    requires forall c :: c in results ==> Trip(t, site, target, c.path)
    ensures FastestFitting(t', site, target, best, results)
  {
    hide Trip, Grows, TripInstalled;
    TripInstalledSurvives(t, t', site, target, best.path);
    forall c | c in results && c.latency < best.latency
      ensures !TripFits(t', site, target, c.path)
    {
      ClashSurvives(t, t', site, target, c.path);
    }
  }

  lemma TripInstalledSurvives(t: Table, t': Table, site: int, target: int, p: Path)
    requires Grows(t, t') && TripInstalled(t, site, target, p)
    ensures TripInstalled(t', site, target, p)
  {
    InstalledSurvives(t, t', site, target, p, Mid(p, target));
  }

  lemma ClashSurvives(t: Table, t': Table, site: int, target: int, p: Path)
    requires Grows(t, t') && Trip(t, site, target, p)
    ensures !TripFits(t, site, target, p) ==> !TripFits(t', site, target, p)
  {
    ClashStays(t, t', site, target, p, Mid(p, target));
  }

  lemma TripSurvives(t: Table, t': Table, site: int, target: int, p: Path)
    requires SameSites(t, t') && Trip(t, site, target, p)
    ensures Trip(t', site, target, p)
  {
  }

  /** `b` is what trying the candidate on `a` leaves: its hops up to the first clash, or all of them. */
  ghost predicate Tried(a: Table, b: Table, site: int, target: int, c: Ranked) {
    var p, mid := c.path, Mid(c.path, target);
    exists k: nat :: k <= |p| - 2 && Placing(a, b, site, target, p, mid, k)
                     && (k == |p| - 2 || !FitsAt(a, site, target, p, mid, k))
  }

  /** Trying the candidates one after the other leads from `a` to `b`; what an abandoned one has written stays. */
  ghost predicate Attempts(a: Table, b: Table, site: int, target: int, tried: seq<Ranked>)
    decreases |tried|
  {
    if tried == [] then a == b
    else
      var init, last := tried[..|tried| - 1], tried[|tried| - 1];
      exists m :: Attempts(a, m, site, target, init) && Tried(m, b, site, target, last)
  }

  lemma AttemptOneMore(a: Table, m: Table, b: Table, site: int, target: int, tried: seq<Ranked>, c: Ranked)
    requires Attempts(a, m, site, target, tried) && Tried(m, b, site, target, c)
    ensures Attempts(a, b, site, target, tried + [c])
  {
    assert (tried + [c])[..|tried|] == tried;
  }

  /** The state of the selection loop: `tried` has failed, `left` is still to be tried. */
  ghost predicate Selecting(t: Table, now: Table, site: int, target: int, results: seq<Ranked>,
                            left: seq<Ranked>, tried: seq<Ranked>)
  {
    && Consistent(now) && Grows(t, now)
    && Attempts(t, now, site, target, tried)
    && multiset(tried) + multiset(left) == multiset(results)
    && (forall c :: c in tried ==> c in results)
    && (forall c :: c in results ==> c in left || !TripFits(now, site, target, c.path))
    && InOrder(tried, left)
  }

  ghost predicate InOrder(tried: seq<Ranked>, left: seq<Ranked>) {
    && (forall i, j :: 0 <= i < j < |tried| ==> tried[i].latency <= tried[j].latency)
    && (forall i, c :: 0 <= i < |tried| && c in left ==> tried[i].latency <= c.latency)
  }

  lemma StartSelecting(t: Table, site: int, target: int, results: seq<Ranked>)
    requires Consistent(t)
    ensures Selecting(t, t, site, target, results, results, [])
  {
  }

  lemma AfterAttempt(t: Table, before: Table, now: Table, site: int, target: int, results: seq<Ranked>,
                     left: seq<Ranked>, tried: seq<Ranked>, res: Ranked, rest: seq<Ranked>, k: nat)
    requires Selecting(t, before, site, target, results, left, tried)
    requires res in left && multiset(left) == multiset(rest) + multiset{res}
    requires forall c :: c in rest ==> c in left
    requires forall c :: c in left ==> c == res || c in rest
    requires forall c :: c in left ==> res.latency <= c.latency
    requires forall c :: c in results ==> Trip(t, site, target, c.path)
    requires Trip(before, site, target, res.path) && k <= |res.path| - 2
    requires Placing(before, now, site, target, res.path, Mid(res.path, target), k)
    requires k == |res.path| - 2 || !FitsAt(before, site, target, res.path, Mid(res.path, target), k)
    ensures Consistent(now) && Grows(t, now)
    ensures Attempts(t, now, site, target, tried + [res])
    ensures InOrder(tried + [res], rest)
    ensures forall c :: c in results && c !in left ==> !TripFits(now, site, target, c.path)
    ensures multiset(tried + [res]) + multiset(rest) == multiset(results)
  {
    hide Consistent, Placing, Trip, TripFits, Attempts, Tried;
    PlacingGrows(before, now, site, target, res.path, Mid(res.path, target), k);
    WasTried(before, now, site, target, res, k);
    AttemptOneMore(t, before, now, site, target, tried, res);
    GrowsTransitive(t, before, now);
    GrowsSites(t, before);
    forall c | c in results && c !in left
      ensures !TripFits(now, site, target, c.path)
    {
      TripSurvives(t, before, site, target, c.path);
      ClashSurvives(before, now, site, target, c.path);
    }
  }

  /**
   The selection loop: the candidates are tried from the fastest to the slowest, ties in any order, until one fits.
   It fails only if no candidate fits.  The table is what the attempts leave, the abandoned ones included.
   */
  method SelectRoute(t: Table, site: int, target: int, results: seq<Ranked>)
    returns (t': Table, success: bool, ghost best: Ranked, ghost tried: seq<Ranked>)
    requires Consistent(t) && site != target
    requires forall c :: c in results ==> Trip(t, site, target, c.path)
    ensures Consistent(t') && Grows(t, t')
    ensures success ==> FastestFitting(t', site, target, best, results)
    ensures success ==> site in t' && target in t'[site] && t'[site][target] != UNSET
    ensures !success ==> forall c :: c in results ==> !TripFits(t', site, target, c.path)
    ensures Attempts(t, t', site, target, tried) && InOrder(tried, [])
    ensures forall c :: c in tried ==> c in results
    ensures success ==> |tried| > 0 && tried[|tried| - 1] == best
    ensures !success ==> multiset(tried) == multiset(results)
  {
    hide Consistent, Grows, Fits, Installed, RoundTrip, Placing, Attempts;
    t', success, best, tried := t, false, Ranked(0, 0, 0, []), [];
    var left := results;
    StartSelecting(t, site, target, results);
    while |left| > 0
      invariant Selecting(t, t', site, target, results, left, tried)
      decreases |left|
    {
      var res, rest := ContainerHeap.Pop(left, (c: Ranked) => c.latency as real);
      assert res in multiset(left) && res in multiset(results);
      assert res in results;
      GrowsSites(t, t');
      TripSurvives(t, t', site, target, res.path);
      ghost var before := t';
      ghost var k;
      t', success, k := TryCandidate(t', site, target, res.path, Mid(res.path, target));
      AfterAttempt(t, before, t', site, target, results, left, tried, res, rest, k);
      tried := tried + [res];
      if success {
        best := res;
        PlacingGrows(before, t', site, target, res.path, Mid(res.path, target), k);
        GrowsSites(before, t');
        TripSurvives(before, t', site, target, res.path);
        FirstHopFilled(t', site, target, res.path);
        return;
      }
      left := rest;
    }
  }

  lemma WasTried(a: Table, b: Table, site: int, target: int, c: Ranked, k: nat)
    requires k + 2 <= |c.path| && Placing(a, b, site, target, c.path, Mid(c.path, target), k)
    requires k == |c.path| - 2 || !FitsAt(a, site, target, c.path, Mid(c.path, target), k)
    ensures Tried(a, b, site, target, c)
  {
  }

  lemma GrowsReflexive(t: Table)
    requires Consistent(t)
    ensures Grows(t, t)
  {
  }

  lemma GrowsSites(t: Table, t': Table)
    requires Grows(t, t')
    ensures SameSites(t, t')
  {
  }

  lemma PlacingGrows(t: Table, now: Table, site: int, target: int, p: Path, mid: nat, k: nat)
    requires k + 1 < |p| && Placing(t, now, site, target, p, mid, k)
    ensures Consistent(now) && Grows(t, now)
  {
  }

  lemma FirstHopFilled(t: Table, site: int, target: int, p: Path)
    requires Consistent(t) && Trip(t, site, target, p) && TripInstalled(t, site, target, p)
    ensures site in t && target in t[site] && t[site][target] != UNSET
  {
    assert WrittenAt(t, site, target, p, Mid(p, target), 0);
  }

  // ---------- What it means to fit ----------

  /** The first `k` hops of a round trip that fits can be written. */
  lemma {:induction false} PlaceFitting(t: Table, site: int, target: int, p: Path, mid: nat, k: nat)
    returns (now: Table)
    requires Consistent(t) && site != target && RoundTrip(t, site, target, p, mid) && Fits(t, site, target, p, mid)
    requires k <= |p| - 2
    ensures Placing(t, now, site, target, p, mid, k)
  {
    hide Placing, Consistent, Put, Fits;
    StartPlacing(t, site, target, p, mid);
    if k == 0 {
      now := t;
    } else {
      var before := PlaceFitting(t, site, target, p, mid, k - 1);
      if !FitsAt(before, site, target, p, mid, k - 1) {
        PlacingClash(t, before, site, target, p, mid, k - 1);
      }
      PlacingWrite(t, before, site, target, p, mid, k - 1);
      now := Put(before, p[k - 1], Dest(site, target, mid, k - 1), p[k]);
    }
  }

  lemma InstalledFits(t: Table, t': Table, site: int, target: int, p: Path, mid: nat)
    requires Grows(t, t') && RoundTrip(t, site, target, p, mid) && Installed(t', site, target, p, mid)
    ensures Fits(t, site, target, p, mid)
  {
    forall i: nat | i < |p| - 2
      ensures FitsAt(t, site, target, p, mid, i)
    {
      assert WrittenAt(t', site, target, p, mid, i);
    }
  }

  /** A round trip fits a table if and only if the table can be extended, without a change, to one that has it. */
  lemma FitsIffExtendable(t: Table, site: int, target: int, p: Path)
    requires Consistent(t) && site != target && Trip(t, site, target, p)
    ensures TripFits(t, site, target, p) <==>
            exists t' :: Grows(t, t') && Consistent(t') && TripInstalled(t', site, target, p)
  {
    hide Consistent, Grows, Fits, Installed, Placing;
    if TripFits(t, site, target, p) {
      var t' := PlaceFitting(t, site, target, p, Mid(p, target), |p| - 2);
      PlacingEnd(t, t', site, target, p, Mid(p, target));
      PlacingGrows(t, t', site, target, p, Mid(p, target), |p| - 2);
    }
    if t' :| Grows(t, t') && Consistent(t') && TripInstalled(t', site, target, p) {
      InstalledFits(t, t', site, target, p, Mid(p, target));
    }
  }

  // ---------- What an installed round trip means for forwarding ----------

  /** Traffic from `site` for `target` follows the forward leg exactly. */
  lemma {:induction false} FollowsForwardLeg(t: Table, site: int, target: int, p: Path, k: nat)
    requires site != target && Trip(t, site, target, p) && TripInstalled(t, site, target, p)
    requires k <= Mid(p, target)
    ensures Walk(t, target, site, k) == Some(p[k] as int)
  {
    if k > 0 {
      FollowsForwardLeg(t, site, target, p, k - 1);
      assert WrittenAt(t, site, target, p, Mid(p, target), k - 1);
    }
  }

  /** Traffic from `target` for `site` follows the return leg as far as its last site but one. */
  lemma {:induction false} FollowsReturnLeg(t: Table, site: int, target: int, p: Path, k: nat)
    requires site != target && Trip(t, site, target, p) && TripInstalled(t, site, target, p)
    requires Mid(p, target) + k <= |p| - 2
    ensures Walk(t, site, target, k) == Some(p[Mid(p, target) + k] as int)
  {
    if k > 0 {
      FollowsReturnLeg(t, site, target, p, k - 1);
      assert WrittenAt(t, site, target, p, Mid(p, target), Mid(p, target) + k - 1);
    }
  }

  // ---------- Why the loop check is needed ----------

  lemma ShortTripFits(t: Table, s: nat, a: nat, b: nat)
    requires Consistent(t) && s in t && a in t && b in t && s != a && a != b && b != s
    requires t[s][a] == UNSET && t[a][s] == UNSET
    ensures Trip(t, s, a, [s, a, b, s]) && Mid([s, a, b, s], a) == 1
    ensures Fits(t, s, a, [s, a, b, s], 1)
  {
    var p: Path := [s, a, b, s];
    MidAt(p, a, 1);
    assert p[..2] == [s, a] && p[1..] == [a, b, s];
  }

  lemma ShortTripWrites(t: Table, t': Table, s: nat, a: nat, b: nat)
    requires Consistent(t) && s in t && a in t && b in t && s != a && a != b && b != s
    requires Placing(t, t', s, a, [s, a, b, s], 1, 2)
    ensures SameSites(t, t') && FullRows(t')
    ensures t'[a][s] == b && t'[s][b] == t[s][b] && t'[b][s] == t[b][s]
  {
    var p: Path := [s, a, b, s];
    assert WrittenAt(t', s, a, p, 1, 1);
    assert !IsSlot(s, a, p, 1, 2, s, b) && !IsSlot(s, a, p, 1, 2, b, s);
    assert Untouched(t, t', s, a, p, 1, 2);
    assert t'[s][b] == t[s][b] && t'[b][s] == t[b][s];
  }

  /**
   Two round trips from `s`, each fitting the table it finds, can together form a loop, because the last hop of a
   return leg is neither written nor looked at.  Sites `a` and `b` end up forwarding traffic for `s` to each other,
   and since no entry is ever changed, whatever else is written afterwards.
   */
  lemma GreedyFillingCanLoop(t: Table, t1: Table, t2: Table, t': Table, s: nat, a: nat, b: nat)
    requires Consistent(t) && s in t && a in t && b in t && s != a && a != b && b != s
    requires t[s][a] == UNSET && t[a][s] == UNSET && t[s][b] == UNSET && t[b][s] == UNSET
    requires Placing(t, t1, s, a, [s, a, b, s], 1, 2)
    ensures Fits(t, s, a, [s, a, b, s], 1) && Fits(t1, s, b, [s, b, a, s], 1)
    ensures Placing(t1, t2, s, b, [s, b, a, s], 1, 2) && Grows(t2, t') ==> BadEntry(t', a, s)
  {
    hide Placing, Grows, Consistent, Fits, BadEntry, Trip;
    RowsFull(t);
    ShortTripFits(t, s, a, b);
    ShortTripWrites(t, t1, s, a, b);
    PlacingGrows(t, t1, s, a, [s, a, b, s], 1, 2);
    ShortTripFits(t1, s, b, a);
    if Placing(t1, t2, s, b, [s, b, a, s], 1, 2) && Grows(t2, t') {
      ShortTripWrites(t1, t2, s, b, a);
      MutualHops(t2, t', s, a, b);
    }
  }

  lemma RowsFull(t: Table)
    requires Consistent(t)
    ensures FullRows(t)
  {
  }

  lemma MutualHops(t: Table, t': Table, s: nat, a: nat, b: nat)
    requires s in t && a in t && b in t && s != a && a != b && b != s
    requires FullRows(t)
    requires t[a][s] == b && t[b][s] == a && Grows(t, t')
    ensures BadEntry(t', a, s)
  {
    assert Hop(t', s, a) == Some(b as int) && Hop(t', s, b) == Some(a as int);
    ClosedSetLoops(t', s, {a, b}, b);
  }
}
