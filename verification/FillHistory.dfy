/**
 The history of filling a table: every entry of a site for itself, and every pair of sites handled by the selection
 loop, each with the table before and after.
 */
module FillHistory {
  import opened Wrappers
  import opened Graphs
  import opened RouteTables
  import opened TableFilling
  import opened Candidates

  datatype Event =
    | Own(site: int, before: Table, after: Table)
    | Handled(site: int, target: int, before: Table, after: Table,
              results: seq<Ranked>, tried: seq<Ranked>, placed: bool)

  /**
   What the selection loop does for a pair whose entry is unset: the candidates are the measured combinations of the
   best paths; they are tried by latency until one fits, which is then the fastest that fits, or all have failed.
   */
  ghost predicate HandledOk(m: Matrix, measure: Measurements, e: Event)
    requires Square(m) && e.Handled?
  {
    && e.site != e.target && 0 <= e.site && 0 <= e.target
    && e.site in e.before && e.target in e.before[e.site] && e.before[e.site][e.target] == UNSET
    && Measured(m, e.site, e.target, measure, e.results)
    && (forall c :: c in e.results ==> Trip(e.before, e.site, e.target, c.path))
    && (forall c :: c in e.tried ==> c in e.results)
    && Attempts(e.before, e.after, e.site, e.target, e.tried) && InOrder(e.tried, [])
    && if e.placed then
         |e.tried| > 0 && FastestFitting(e.after, e.site, e.target, e.tried[|e.tried| - 1], e.results)
       else
         && multiset(e.tried) == multiset(e.results)
         && forall c :: c in e.results ==> !TripFits(e.after, e.site, e.target, c.path)
  }

  ghost predicate EventOk(m: Matrix, measure: Measurements, e: Event)
    requires Square(m)
  {
    && Consistent(e.before) && Consistent(e.after) && Grows(e.before, e.after)
    && if e.Handled? then HandledOk(m, measure, e)
       else
         && e.site in e.before && e.site in e.before[e.site] && e.before[e.site][e.site] == UNSET
         && e.after == Put(e.before, e.site, e.site, e.site)
  }

  /** The events lead from the table `blank` to the table `t`, each starting where the one before ended. */
  ghost predicate Linked(m: Matrix, measure: Measurements, blank: Table, history: seq<Event>, t: Table)
    requires Square(m)
    decreases |history|
  {
    if history == [] then t == blank
    else
      var init, last := history[..|history| - 1], history[|history| - 1];
      last.after == t && EventOk(m, measure, last) && Linked(m, measure, blank, init, last.before)
  }

  lemma LinkEvent(m: Matrix, measure: Measurements, blank: Table, history: seq<Event>, e: Event)
    requires Square(m) && Linked(m, measure, blank, history, e.before) && EventOk(m, measure, e)
    ensures Linked(m, measure, blank, history + [e], e.after)
  {
    hide EventOk;
    assert (history + [e])[..|history|] == history;
  }

  /** Over the whole run the table is write-once. */
  lemma {:induction false} RunGrows(m: Matrix, measure: Measurements, blank: Table, history: seq<Event>, t: Table)
    requires Square(m) && Consistent(blank) && Linked(m, measure, blank, history, t)
    ensures Consistent(t) && Grows(blank, t)
    decreases |history|
  {
    hide Consistent, Grows, HandledOk;
    if history == [] {
      GrowsReflexive(blank);
    } else {
      var init, last := history[..|history| - 1], history[|history| - 1];
      RunGrows(m, measure, blank, init, last.before);
      GrowsTransitive(blank, last.before, t);
    }
  }

  lemma {:induction false} EventInRun(m: Matrix, measure: Measurements, blank: Table, history: seq<Event>, t: Table,
                                      i: nat)
    requires Square(m) && Consistent(blank) && Linked(m, measure, blank, history, t) && i < |history|
    ensures EventOk(m, measure, history[i])
    ensures Grows(blank, history[i].before) && Grows(history[i].after, t)
    decreases |history|
  {
    hide Consistent, Grows, HandledOk;
    var init, last := history[..|history| - 1], history[|history| - 1];
    RunGrows(m, measure, blank, init, last.before);
    if i < |init| {
      EventInRun(m, measure, blank, init, last.before, i);
      assert init[i] == history[i];
      GrowsTransitive(history[i].after, last.before, t);
    } else {
      GrowsReflexive(t);
    }
  }

  /** Traffic follows the round trip out and, as far as its last site but one, back. */
  ghost predicate FollowsLegs(t: Table, site: int, target: int, p: Path) {
    && (forall k: nat :: k <= Mid(p, target) < |p| ==> Walk(t, target, site, k) == Some(p[k] as int))
    && (forall k: nat :: Mid(p, target) + k <= |p| - 2 ==>
          Walk(t, site, target, k) == Some(p[Mid(p, target) + k] as int))
  }

  lemma InstalledLegs(t: Table, site: int, target: int, p: Path)
    requires site != target && Trip(t, site, target, p) && TripInstalled(t, site, target, p)
    ensures FollowsLegs(t, site, target, p)
  {
    hide Trip, TripInstalled, Walk;
    forall k: nat | k <= Mid(p, target) < |p|
      ensures Walk(t, target, site, k) == Some(p[k] as int)
    {
      FollowsForwardLeg(t, site, target, p, k);
    }
    forall k: nat | Mid(p, target) + k <= |p| - 2
      ensures Walk(t, site, target, k) == Some(p[Mid(p, target) + k] as int)
    {
      FollowsReturnLeg(t, site, target, p, k);
    }
  }

  /** What the choice made for a pair still means in the table `t`. */
  ghost predicate ChoiceStands(t: Table, e: Event) {
    e.Handled? && e.placed ==>
      && Grows(e.after, t) && |e.tried| > 0
      && FastestFitting(t, e.site, e.target, e.tried[|e.tried| - 1], e.results)
      && FollowsLegs(t, e.site, e.target, e.tried[|e.tried| - 1].path)
  }

  lemma ChoiceSurvives(m: Matrix, measure: Measurements, t: Table, e: Event)
    requires Square(m) && EventOk(m, measure, e) && Grows(e.after, t)
    ensures ChoiceStands(t, e)
  {
    hide Consistent, Grows, Trip, TripInstalled, TripFits, FollowsLegs, Measured, Attempts, InOrder;
    if e.Handled? && e.placed {
      var best := e.tried[|e.tried| - 1];
      GrowsSites(e.before, e.after);
      GrowsSites(e.after, t);
      forall c | c in e.results
        ensures Trip(e.after, e.site, e.target, c.path) && Trip(t, e.site, e.target, c.path)
      {
        TripSurvives(e.before, e.after, e.site, e.target, c.path);
        TripSurvives(e.after, t, e.site, e.target, c.path);
      }
      FastestSurvives(e.after, t, e.site, e.target, best, e.results);
      InstalledLegs(t, e.site, e.target, best.path);
    }
  }

  // ---------- Where the entries come from ----------

  /** Some hop of the candidate sends `x`'s traffic for `d` to `v`. */
  ghost predicate WritesHop(site: int, target: int, c: Ranked, x: int, d: int, v: int) {
    exists i: nat :: i < |c.path| - 2 && c.path[i] == x && Dest(site, target, Mid(c.path, target), i) == d
                     && c.path[i + 1] == v
  }

  /** A candidate tried for a handled pair sends `x`'s traffic for `d` to `v`. */
  ghost predicate Proposes(e: Event, x: int, d: int, v: int) {
    e.Handled? && exists c :: c in e.tried && WritesHop(e.site, e.target, c, x, d, v)
  }

  ghost predicate Proposed(history: seq<Event>, x: int, d: int, v: int) {
    exists i :: 0 <= i < |history| && Proposes(history[i], x, d, v)
  }

  lemma TriedWrites(a: Table, b: Table, site: int, target: int, c: Ranked, x: int, d: int)
    requires Consistent(a) && Tried(a, b, site, target, c)
    requires x in a && d in a
    ensures Consistent(b) && Grows(a, b) && x in b && d in b && d in a[x] && d in b[x]
    ensures b[x][d] == a[x][d] || WritesHop(site, target, c, x, d, b[x][d])
  {
    var p, mid := c.path, Mid(c.path, target);
    var k: nat :| k <= |p| - 2 && Placing(a, b, site, target, p, mid, k)
                  && (k == |p| - 2 || !FitsAt(a, site, target, p, mid, k));
    assert d in a[x] && d in b[x];
    if b[x][d] != a[x][d] {
      assert IsSlot(site, target, p, mid, k, x, d);
      var i: nat :| i < k && p[i] == x && Dest(site, target, mid, i) == d;
      assert WrittenAt(b, site, target, p, mid, i);
    }
  }

  lemma {:induction false} AttemptsWrite(a: Table, b: Table, site: int, target: int, tried: seq<Ranked>, x: int, d: int)
    requires Consistent(a) && Attempts(a, b, site, target, tried) && x in a && d in a
    ensures Consistent(b) && Grows(a, b) && x in b && d in b && d in a[x] && d in b[x]
    ensures b[x][d] == a[x][d] || exists c :: c in tried && WritesHop(site, target, c, x, d, b[x][d])
    decreases |tried|
  {
    hide Consistent, Grows, Tried, WritesHop;
    if tried == [] {
      GrowsReflexive(a);
      RowsFull(a);
    } else {
      var init, last := tried[..|tried| - 1], tried[|tried| - 1];
      var mid :| Attempts(a, mid, site, target, init) && Tried(mid, b, site, target, last);
      AttemptsWrite(a, mid, site, target, init, x, d);
      TriedWrites(mid, b, site, target, last, x, d);
      GrowsTransitive(a, mid, b);
      assert last in tried;
      if b[x][d] == mid[x][d] && mid[x][d] != a[x][d] {
        var c :| c in init && WritesHop(site, target, c, x, d, mid[x][d]);
        assert c in tried;
      }
    }
  }

  lemma EventWrites(m: Matrix, measure: Measurements, e: Event, x: int, d: int)
    requires Square(m) && EventOk(m, measure, e) && x in e.before && d in e.before && x != d
    ensures x in e.after && d in e.after && d in e.before[x] && d in e.after[x]
    ensures e.after[x][d] == e.before[x][d] || Proposes(e, x, d, e.after[x][d])
  {
    hide Consistent, Grows, WritesHop, Measured, Trip, TripFits, FastestFitting, Attempts, InOrder, Put;
    RowsFull(e.before);
    GrowsSites(e.before, e.after);
    RowsFull(e.after);
    if e.Handled? {
      AttemptsWrite(e.before, e.after, e.site, e.target, e.tried, x, d);
    }
  }

  /** Every entry for another site that the run has changed was proposed by a candidate tried for a handled pair. */
  lemma {:induction false} EntriesProposed(m: Matrix, measure: Measurements, blank: Table, history: seq<Event>,
                                           t: Table, x: int, d: int)
    requires Square(m) && Consistent(blank) && Linked(m, measure, blank, history, t)
    requires x in blank && d in blank && x != d
    ensures x in t && d in t && d in blank[x] && d in t[x]
    ensures t[x][d] == blank[x][d] || Proposed(history, x, d, t[x][d])
    decreases |history|
  {
    hide Consistent, Proposes, EventOk;
    if history == [] {
      RowsFull(blank);
    } else {
      var init, last := history[..|history| - 1], history[|history| - 1];
      EntriesProposed(m, measure, blank, init, last.before, x, d);
      EventWrites(m, measure, last, x, d);
      if Proposed(init, x, d, last.before[x][d]) {
        var i :| 0 <= i < |init| && Proposes(init[i], x, d, last.before[x][d]);
        assert history[i] == init[i];
      }
    }
  }

  // ---------- What a run promises of its last table ----------

  /** All choices made stand in the table, and all its entries for other sites come from candidates tried. */
  ghost predicate RunHolds(blank: Table, history: seq<Event>, t: Table) {
    && Grows(blank, t)
    && (forall i :: 0 <= i < |history| ==> ChoiceStands(t, history[i]))
    && (forall x, d :: x in blank && d in blank && x != d ==>
          x in t && d in t[x] && d in blank[x] && (t[x][d] == blank[x][d] || Proposed(history, x, d, t[x][d])))
  }

  lemma LinkedHolds(m: Matrix, measure: Measurements, blank: Table, history: seq<Event>, t: Table)
    requires Square(m) && Consistent(blank) && Linked(m, measure, blank, history, t)
    ensures RunHolds(blank, history, t)
  {
    hide Consistent, Grows, Linked, ChoiceStands, EventOk, Proposed;
    RunGrows(m, measure, blank, history, t);
    forall i | 0 <= i < |history|
      ensures ChoiceStands(t, history[i])
    {
      EventInRun(m, measure, blank, history, t, i);
      ChoiceSurvives(m, measure, t, history[i]);
    }
    forall x, d | x in blank && d in blank && x != d
      ensures x in t && d in t[x] && d in blank[x]
      ensures t[x][d] == blank[x][d] || Proposed(history, x, d, t[x][d])
    {
      EntriesProposed(m, measure, blank, history, t, x, d);
    }
  }

  ghost predicate AllPlaced(history: seq<Event>) {
    forall i :: 0 <= i < |history| && history[i].Handled? ==> history[i].placed
  }

  ghost predicate AllUnset(t: Table) {
    forall x, d {:trigger t[x][d]} :: x in t && d in t[x] ==> t[x][d] == UNSET
  }

  /** Every entry for another site was proposed by a candidate tried for a handled pair. */
  ghost predicate AllProposed(history: seq<Event>, t: Table) {
    forall x, d :: x in t && d in t[x] && x != d ==> Proposed(history, x, d, t[x][d])
  }

  /** In a complete table filled from a blank one nothing else is written. */
  lemma NothingElseWritten(blank: Table, history: seq<Event>, t: Table)
    requires Consistent(t) && Complete(t) && AllUnset(blank) && RunHolds(blank, history, t)
    ensures AllProposed(history, t)
  {
    hide ChoiceStands, Proposed;
    forall x, d | x in t && d in t[x] && x != d
      ensures Proposed(history, x, d, t[x][d])
    {
      assert x in blank && d in blank && blank[x][d] == UNSET;
      assert t[x][d] in t;
    }
  }

  /** What the run has proposed are hops over edges of the graph. */
  lemma ProposedIsEdge(m: Matrix, measure: Measurements, blank: Table, history: seq<Event>, t: Table,
                       x: int, d: int, v: int)
    requires Square(m) && Consistent(blank) && Linked(m, measure, blank, history, t) && Proposed(history, x, d, v)
    ensures x >= 0 && v >= 0 && Edge(m, x, v)
  {
    hide Consistent, Linked, Grows, Measured, Trip, TripFits, FastestFitting, Attempts, InOrder, Edge;
    var i :| 0 <= i < |history| && Proposes(history[i], x, d, v);
    EventInRun(m, measure, blank, history, t, i);
    var e := history[i];
    var c :| c in e.tried && WritesHop(e.site, e.target, c, x, d, v);
    MeasuredIsWalk(m, e.site, e.target, measure, e.results, c);
    var k: nat :| k < |c.path| - 2 && c.path[k] == x && c.path[k + 1] == v;
    assert Edge(m, c.path[k + 1 - 1], c.path[k + 1]);
  }

  /** No pair is handled twice: once its trip is placed its entry is filled for good. */
  lemma HandledOnce(m: Matrix, measure: Measurements, blank: Table, history: seq<Event>, t: Table, i: nat, j: nat)
    requires Square(m) && Consistent(blank) && Linked(m, measure, blank, history, t)
    requires i < j < |history| && history[i].Handled? && history[i].placed && history[j].Handled?
    ensures !(history[i].site == history[j].site && history[i].target == history[j].target)
  {
    hide Consistent, Grows, Attempts, InOrder, Measured;
    var e, f := history[i], history[j];
    LinkedPrefix(m, measure, blank, history, t, j);
    EventInRun(m, measure, blank, history[..j], f.before, i);
    EventInRun(m, measure, blank, history, t, j);
    assert history[..j][i] == e;
    PlacedFilled(m, measure, e, f.before);
  }

  lemma {:induction false} LinkedPrefix(m: Matrix, measure: Measurements, blank: Table, history: seq<Event>, t: Table,
                                        j: nat)
    requires Square(m) && Linked(m, measure, blank, history, t) && j < |history|
    ensures Linked(m, measure, blank, history[..j], history[j].before)
    decreases |history|
  {
    hide EventOk;
    var init, last := history[..|history| - 1], history[|history| - 1];
    if j < |init| {
      LinkedPrefix(m, measure, blank, init, last.before, j);
      assert init[..j] == history[..j];
    }
  }

  lemma PlacedFilled(m: Matrix, measure: Measurements, e: Event, t: Table)
    requires Square(m) && EventOk(m, measure, e) && e.Handled? && e.placed && Grows(e.after, t)
    ensures e.site in t && e.target in t[e.site] && t[e.site][e.target] != UNSET
  {
    hide Consistent, Attempts, InOrder, Measured, Trip, TripInstalled, TripFits;
    var best := e.tried[|e.tried| - 1];
    GrowsSites(e.before, e.after);
    TripSurvives(e.before, e.after, e.site, e.target, best.path);
    FirstHopFilled(e.after, e.site, e.target, best.path);
  }
}
