/**
 Why the loop check is needed, on the smallest network: three sites, all connected, of which only four round trips
 can be measured.  However the table is filled, it ends in a loop.
 */
module LoopExample {
  import opened Wrappers
  import opened Graphs
  import opened PathQueues
  import opened RouteTables
  import opened TableFilling
  import opened Candidates
  import opened FillHistory

  const TRIANGLE: Matrix := [
    [Inf, Fin(1.0), Fin(1.0)],
    [Fin(1.0), Inf, Fin(1.0)],
    [Fin(1.0), Fin(1.0), Inf]]

  const BLANK_ROW: Row := map[0 := UNSET, 1 := UNSET, 2 := UNSET]

  const BLANK: Table := map[0 := BLANK_ROW, 1 := BLANK_ROW, 2 := BLANK_ROW]

  /** From site 0 the round trips to 1 and 2 come back by the other one; 1 and 2 reach each other directly. */
  function Answers(target: int, p: Path): Option<int> {
    if target == 1 && (p == [0, 1, 2, 0] || p == [2, 1, 2]) then Some(1)
    else if target == 2 && (p == [0, 2, 1, 0] || p == [1, 2, 1]) then Some(1)
    else None
  }

  // ---------- Every filling loops ----------

  /** Of the round trips measured, those that write `a`'s entry for site 0 point it to `b`. */
  lemma OnlyHop(site: int, target: int, c: Ranked, a: int, b: int, v: int)
    requires (a == 1 && b == 2) || (a == 2 && b == 1)
    requires Answers(target, c.path).Some? && c.path[0] == site && WritesHop(site, target, c, a, 0, v)
    ensures v == b
  {
    var p := c.path;
    MidAt(p, target, 1);
  }

  lemma OnlyEntry(history: seq<Event>, t: Table, a: int, b: int)
    requires (a == 1 && b == 2) || (a == 2 && b == 1)
    requires Linked(TRIANGLE, Answers, BLANK, history, t)
    ensures a in t && 0 in t[a] && t[a][0] in {UNSET, b}
  {
    hide Linked, HandledOk, WritesHop, Answers, Consistent;
    StartsBlank();
    EntriesProposed(TRIANGLE, Answers, BLANK, history, t, a, 0);
    if t[a][0] != UNSET {
      var i :| 0 <= i < |history| && Proposes(history[i], a, 0, t[a][0]);
      EventInRun(TRIANGLE, Answers, BLANK, history, t, i);
      var e := history[i];
      var c :| c in e.tried && WritesHop(e.site, e.target, c, a, 0, t[a][0]);
      TriedIsMeasured(e, c);
      OnlyHop(e.site, e.target, c, a, b, t[a][0]);
    }
  }

  lemma StartsBlank()
    ensures Square(TRIANGLE) && Consistent(BLANK)
  {
  }

  lemma TriedIsMeasured(e: Event, c: Ranked)
    requires e.Handled? && HandledOk(TRIANGLE, Answers, e) && c in e.tried
    ensures Answers(e.target, c.path).Some? && c.path[0] == e.site
  {
    hide Answers, Attempts, InOrder, FastestFitting, TripFits, TopN, Penalty, Join;
    assert c in e.results;
    assert Trip(e.before, e.site, e.target, c.path);
  }

  /** In whatever order the pairs are handled, a complete table has a loop and does not deliver. */
  lemma EveryFillingLoops(history: seq<Event>, t: Table)
    requires Linked(TRIANGLE, Answers, BLANK, history, t) && Complete(t)
    ensures BadEntry(t, 1, 0) && !Delivers(t)
  {
    hide Linked, Grows, BadEntry, Delivers;
    StartsBlank();
    RunGrows(TRIANGLE, Answers, BLANK, history, t);
    GrowsSites(BLANK, t);
    GrowsReflexive(t);
    OnlyEntry(history, t, 1, 2);
    OnlyEntry(history, t, 2, 1);
    assert 1 in t && 2 in t && 0 in t;
    MutualHops(t, t, 0, 1, 2);
    DeliversIffLoopFree(t);
  }

  // ---------- Such a filling exists ----------

  predicate Distinct(a: nat, b: nat, c: nat) {
    a < 3 && b < 3 && c < 3 && a != b && b != c && c != a
  }

  function Best(a: nat, b: nat, c: nat): seq<PathResult> {
    [PathResult([a, b], 1.0), PathResult([a, c, b], 2.0)]
  }

  lemma Weights(u: nat, v: nat)
    requires u < 3 && v < 3 && u != v
    ensures Edge(TRIANGLE, u, v) && TRIANGLE[u][v].value == 1.0 && |TRIANGLE| == 3
  {
  }

  lemma BestAreSimple(a: nat, b: nat, c: nat)
    requires Distinct(a, b, c)
    ensures SimplePath(TRIANGLE, a, b, [a, b]) && Cost(TRIANGLE, [a, b]) == 1.0
    ensures SimplePath(TRIANGLE, a, b, [a, c, b]) && Cost(TRIANGLE, [a, c, b]) == 2.0
  {
    hide TRIANGLE;
    StartsBlank();
    Weights(a, b);
    Weights(a, c);
    Weights(c, b);
    assert Cost(TRIANGLE, [a]) == 0.0;
    ExtendWalk(TRIANGLE, [a], b);
    ExtendWalk(TRIANGLE, [a], c);
    ExtendWalk(TRIANGLE, [a, c], b);
    assert [a] + [b] == [a, b] && [a] + [c] == [a, c] && [a, c] + [b] == [a, c, b];
  }

  lemma BestIsTopN(a: nat, b: nat, c: nat)
    requires Distinct(a, b, c)
    ensures TopN(TRIANGLE, a, b, TOP_N, Best(a, b, c))
  {
    hide TRIANGLE, SimplePath, Cost;
    StartsBlank();
    BestAreSimple(a, b, c);
    var rs := Best(a, b, c);
    assert rs[0] == PathResult([a, b], 1.0) && rs[1] == PathResult([a, c, b], 2.0);
    assert rs[0].path != rs[1].path;
    forall p | SimplePath(TRIANGLE, a, b, p)
      ensures p == rs[0].path || p == rs[1].path
    {
      OnlyTwoPaths(a, b, c, p);
    }
  }

  lemma OnlyTwoPaths(a: nat, b: nat, c: nat, p: Path)
    requires Distinct(a, b, c) && SimplePath(TRIANGLE, a, b, p)
    ensures p == [a, b] || p == [a, c, b]
  {
    WalkInRange(TRIANGLE, p);
    SimplePathInWords(TRIANGLE, a, b, p);
  }

  /** The only combination of the best paths that is measured is the one at `i` and `j`. */
  predicate OneAnswer(a: nat, b: nat, c: nat, i: nat, j: nat)
    requires i < 2 && j < 2
  {
    forall f: nat, r: nat :: f < 2 && r < 2 ==>
      (Answers(b, Join(Best(a, b, c)[f].path, Best(b, a, c)[r].path)).Some? <==> f == i && r == j)
  }

  predicate Placed(e: Event) {
    e.Handled? ==> e.placed
  }

  /** The event in which the only candidate for a pair is placed. */
  lemma PlaceOnly(t: Table, t': Table, a: nat, b: nat, c: nat, i: nat, j: nat, p: Path) returns (e: Event)
    requires Distinct(a, b, c) && i < 2 && j < 2 && OneAnswer(a, b, c, i, j)
    requires p == Join(Best(a, b, c)[i].path, Best(b, a, c)[j].path)
    requires Consistent(t) && a in t && b in t[a] && t[a][b] == UNSET
    requires Trip(t, a, b, p) && Placing(t, t', a, b, p, Mid(p, b), |p| - 2)
    ensures EventOk(TRIANGLE, Answers, e) && e.before == t && e.after == t' && Placed(e)
  {
    hide Consistent, Grows, Placing, Join, Penalty, HandledOk, TRIANGLE, BLANK, OneAnswer, Trip, Measured;
    StartsBlank();
    ThereIsAnswer(a, b, c, i, j);
    var measured := Answers(b, p).value;
    var best := Ranked(i + 1, j + 1, measured + Penalty(p, a, b, measured), p);
    e := Handled(a, b, t, t', [best], [best], true);
    OnlyMeasured(a, b, c, i, j, best);
    TripAt(t, a, b, p);
    PlacingGrows(t, t', a, b, p, Mid(p, b), |p| - 2);
    OnlyPlaced(e, best);
  }

  lemma ThereIsAnswer(a: nat, b: nat, c: nat, i: nat, j: nat)
    requires i < 2 && j < 2 && OneAnswer(a, b, c, i, j)
    ensures Answers(b, Join(Best(a, b, c)[i].path, Best(b, a, c)[j].path)).Some?
  {
  }

  lemma OnlyPlaced(e: Event, best: Ranked)
    requires e.Handled? && e.placed && e.results == e.tried == [best]
    requires e.site != e.target && e.site >= 0 && e.target >= 0
    requires e.site in e.before && e.target in e.before[e.site] && e.before[e.site][e.target] == UNSET
    requires Square(TRIANGLE) && Measured(TRIANGLE, e.site, e.target, Answers, [best])
    requires Trip(e.before, e.site, e.target, best.path) && |best.path| >= 3
    requires Placing(e.before, e.after, e.site, e.target, best.path, Mid(best.path, e.target), |best.path| - 2)
    ensures HandledOk(TRIANGLE, Answers, e)
  {
    hide Consistent, Grows, Placing, TRIANGLE, Trip, Measured, Fits, Installed, Tried;
    var p, mid := best.path, Mid(best.path, e.target);
    PlacingEnd(e.before, e.after, e.site, e.target, p, mid);
    WasTried(e.before, e.after, e.site, e.target, best, |p| - 2);
    AttemptOneMore(e.before, e.before, e.after, e.site, e.target, [], best);
    assert [] + [best] == [best];
  }

  lemma OnlyMeasured(a: nat, b: nat, c: nat, i: nat, j: nat, best: Ranked)
    requires Distinct(a, b, c) && i < 2 && j < 2 && OneAnswer(a, b, c, i, j)
    requires IsResult(a, b, Answers, Best(a, b, c), Best(b, a, c), i, j, best) && Square(TRIANGLE)
    ensures Measured(TRIANGLE, a, b, Answers, [best])
  {
    hide TopN, Join, Penalty, Answers, TRIANGLE, IsResultList;
    BestIsTopN(a, b, c);
    BestIsTopN(b, a, c);
    OnlyResult(a, b, c, i, j, best);
    MeasuredBy(TRIANGLE, a, b, Answers, Best(a, b, c), Best(b, a, c), [best]);
  }

  lemma OnlyResult(a: nat, b: nat, c: nat, i: nat, j: nat, best: Ranked)
    requires Distinct(a, b, c) && i < 2 && j < 2 && OneAnswer(a, b, c, i, j)
    requires IsResult(a, b, Answers, Best(a, b, c), Best(b, a, c), i, j, best)
    ensures IsResultList(a, b, Answers, Best(a, b, c), Best(b, a, c), [best])
  {
    hide Join, Penalty, Answers;
    var fs, rs := Best(a, b, c), Best(b, a, c);
    forall x: nat, y: nat, r | IsResult(a, b, Answers, fs, rs, x, y, r)
      ensures r == best
    {
      assert Answers(b, Join(fs[x].path, rs[y].path)).Some?;
    }
  }

  // ---------- One such filling ----------

  lemma CandidatesDiffer()
    ensures OneAnswer(0, 1, 2, 0, 1) && OneAnswer(0, 2, 1, 0, 1)
    ensures OneAnswer(1, 2, 0, 0, 0) && OneAnswer(2, 1, 0, 0, 0)
  {
    hide Join;
    Joins(0, 1, 2);
    Joins(0, 2, 1);
    Joins(1, 2, 0);
    Joins(2, 1, 0);
  }

  lemma Joins(a: nat, b: nat, c: nat)
    ensures Join([a, b], [b, a]) == [a, b, a] && Join([a, c, b], [b, a]) == [a, c, b, a]
    ensures Join([a, b], [b, c, a]) == [a, b, c, a] && Join([a, c, b], [b, c, a]) == [a, c, b, c, a]
  {
  }

  /** Placing `s, a, b, s` writes two entries. */
  lemma PlaceLong(t: Table, s: nat, a: nat, b: nat) returns (e: Event)
    requires Distinct(s, a, b) && OneAnswer(s, a, b, 0, 1)
    requires Consistent(t) && s in t && a in t && b in t
    requires FullRows(t) && t[s][a] == UNSET && t[a][s] == UNSET
    ensures EventOk(TRIANGLE, Answers, e) && e.before == t && e.after == Put(Put(t, s, a, a), a, s, b) && Placed(e)
  {
    hide Placing, Consistent, Trip, Put, Fits, RoundTrip, OneAnswer, HandledOk;
    var p: Path := [s, a, b, s];
    var t1 := Put(t, s, a, a);
    ShortTripFits(t, s, a, b);
    TripAt(t, s, a, p);
    StartPlacing(t, s, a, p, 1);
    PlacingWrite(t, t, s, a, p, 1, 0);
    PlacingWrite(t, t1, s, a, p, 1, 1);
    Joins(s, a, b);
    e := PlaceOnly(t, Put(t1, a, s, b), s, a, b, 0, 1, p);
  }

  lemma TripAt(t: Table, site: int, target: int, p: Path)
    requires Trip(t, site, target, p)
    ensures RoundTrip(t, site, target, p, Mid(p, target))
  {
  }

  /** Placing `a, b, a` writes one entry. */
  lemma PlaceShort(t: Table, a: nat, b: nat, c: nat) returns (e: Event)
    requires Distinct(a, b, c) && OneAnswer(a, b, c, 0, 0)
    requires Consistent(t) && a in t && b in t && b in t[a] && t[a][b] == UNSET
    ensures EventOk(TRIANGLE, Answers, e) && e.before == t && e.after == Put(t, a, b, b) && Placed(e)
  {
    hide Placing, Consistent, Put, OneAnswer, HandledOk;
    var p: Path := [a, b, a];
    MidAt(p, b, 1);
    assert p[..2] == [a, b] && p[1..] == [b, a];
    StartPlacing(t, a, b, p, 1);
    PlacingWrite(t, t, a, b, p, 1, 0);
    Joins(a, b, c);
    e := PlaceOnly(t, Put(t, a, b, b), a, b, c, 0, 0, p);
  }

  predicate ThreeByThree(q: seq<seq<int>>) {
    |q| == 3 && forall x :: 0 <= x < 3 ==> |q[x]| == 3
  }

  /** The entries of the table are those of the matrix `q`. */
  ghost predicate Reads(t: Table, q: seq<seq<int>>) {
    && ThreeByThree(q)
    && (forall x :: x in t <==> 0 <= x < 3)
    && (forall x, d :: x in t && 0 <= d < 3 ==> d in t[x] && t[x][d] == q[x][d])
  }

  function Set(q: seq<seq<int>>, x: nat, d: nat, v: int): (r: seq<seq<int>>)
    requires ThreeByThree(q) && x < 3 && d < 3
    ensures ThreeByThree(r) && r[x][d] == v
    ensures forall y, e {:trigger r[y][e]} :: 0 <= y < 3 && 0 <= e < 3 && !(y == x && e == d) ==> r[y][e] == q[y][e]
  {
    q[x := q[x][d := v]]
  }

  lemma PutReads(t: Table, q: seq<seq<int>>, x: nat, d: nat, v: int)
    requires Reads(t, q) && x < 3 && d < 3
    ensures x in t && d in t[x] && t[x][d] == q[x][d] && Reads(Put(t, x, d, v), Set(q, x, d, v))
  {
    hide Put;
  }

  /** The run so far has led to the entries `q`. */
  ghost predicate At(history: seq<Event>, t: Table, q: seq<seq<int>>) {
    Linked(TRIANGLE, Answers, BLANK, history, t) && AllPlaced(history) && Reads(t, q)
  }

  lemma RunConsistent(history: seq<Event>, t: Table)
    requires Linked(TRIANGLE, Answers, BLANK, history, t)
    ensures Consistent(t)
  {
    hide Linked, Consistent, TRIANGLE, BLANK;
    StartsBlank();
    RunGrows(TRIANGLE, Answers, BLANK, history, t);
  }

  lemma AtEvent(history: seq<Event>, q: seq<seq<int>>, e: Event)
    requires At(history, e.before, q) && EventOk(TRIANGLE, Answers, e) && Placed(e)
    ensures Linked(TRIANGLE, Answers, BLANK, history + [e], e.after) && AllPlaced(history + [e])
  {
    hide HandledOk, Reads, Linked, Consistent;
    LinkEvent(TRIANGLE, Answers, BLANK, history, e);
  }

  lemma StepOwn(history: seq<Event>, t: Table, q: seq<seq<int>>, x: nat) returns (history': seq<Event>, t': Table)
    requires At(history, t, q) && x < 3 && ThreeByThree(q) && q[x][x] == UNSET
    ensures At(history', t', Set(q, x, x, x))
  {
    hide EventOk, Linked, Consistent, Put, Reads, AllPlaced, Set;
    PutReads(t, q, x, x, x);
    RunConsistent(history, t);
    t' := Put(t, x, x, x);
    var e := Own(x, t, t');
    WriteSelf(t, x);
    OwnOk(e);
    AtEvent(history, q, e);
    history' := history + [e];
  }

  lemma OwnOk(e: Event)
    requires e.Own? && Consistent(e.before) && Consistent(e.after) && Grows(e.before, e.after)
    requires e.site in e.before && e.site in e.before[e.site] && e.before[e.site][e.site] == UNSET
    requires e.after == Put(e.before, e.site, e.site, e.site)
    ensures EventOk(TRIANGLE, Answers, e)
  {
    hide Consistent, Grows, Put;
  }

  lemma LongReads(t: Table, q: seq<seq<int>>, s: nat, a: nat, b: nat)
    requires Reads(t, q) && Consistent(t) && Distinct(s, a, b)
    ensures s in t && a in t && b in t && FullRows(t)
    ensures t[s][a] == q[s][a] && t[a][s] == q[a][s]
    ensures Reads(Put(Put(t, s, a, a), a, s, b), Set(Set(q, s, a, a), a, s, b))
  {
    hide Consistent, Put, Set;
    PutReads(t, q, s, a, a);
    PutReads(t, q, a, s, b);
    PutReads(t, q, b, s, b);
    PutReads(Put(t, s, a, a), Set(q, s, a, a), a, s, b);
    RowsFull(t);
  }

  lemma StepLong(history: seq<Event>, t: Table, q: seq<seq<int>>, s: nat, a: nat, b: nat)
    returns (history': seq<Event>, t': Table)
    requires At(history, t, q) && ThreeByThree(q) && Distinct(s, a, b) && OneAnswer(s, a, b, 0, 1)
    requires q[s][a] == UNSET && q[a][s] == UNSET
    ensures At(history', t', Set(Set(q, s, a, a), a, s, b))
  {
    hide EventOk, Linked, Consistent, Put, Reads, AllPlaced, OneAnswer, Set, Placed, TRIANGLE, BLANK;
    StartsBlank();
    RunConsistent(history, t);
    LongReads(t, q, s, a, b);
    var e := PlaceLong(t, s, a, b);
    AtEvent(history, q, e);
    history', t' := history + [e], e.after;
  }

  lemma StepShort(history: seq<Event>, t: Table, q: seq<seq<int>>, a: nat, b: nat, c: nat)
    returns (history': seq<Event>, t': Table)
    requires At(history, t, q) && ThreeByThree(q) && Distinct(a, b, c) && OneAnswer(a, b, c, 0, 0) && q[a][b] == UNSET
    ensures At(history', t', Set(q, a, b, b))
  {
    hide EventOk, Linked, Consistent, Put, Reads, AllPlaced, OneAnswer, Set;
    PutReads(t, q, a, b, b);
    PutReads(t, q, b, a, b);
    RunConsistent(history, t);
    var e := PlaceShort(t, a, b, c);
    AtEvent(history, q, e);
    history', t' := history + [e], e.after;
  }

  lemma StartsAt(q: seq<seq<int>>)
    requires ThreeByThree(q) && forall x, d :: 0 <= x < 3 && 0 <= d < 3 ==> q[x][d] == UNSET
    ensures At([], BLANK, q)
  {
    hide Consistent, TRIANGLE, Answers, EventOk;
    StartsBlank();
    assert BLANK[0] == BLANK[1] == BLANK[2] == BLANK_ROW;
    forall d | 0 <= d < 3
      ensures d in BLANK_ROW && BLANK_ROW[d] == UNSET
    {
    }
  }

  /** Ranging over the sites in order, all pairs are placed, and the table loops. */
  lemma FillingCanEndInLoop() returns (history: seq<Event>, t: Table)
    ensures Linked(TRIANGLE, Answers, BLANK, history, t) && AllPlaced(history)
    ensures Complete(t) && BadEntry(t, 1, 0) && !Delivers(t)
  {
    hide At, OneAnswer, Complete, Set;
    CandidatesDiffer();
    var q := [[UNSET, UNSET, UNSET], [UNSET, UNSET, UNSET], [UNSET, UNSET, UNSET]];
    StartsAt(q);
    history, t := StepOwn([], BLANK, q, 0);
    q := Set(q, 0, 0, 0);
    history, t := StepLong(history, t, q, 0, 1, 2);
    q := Set(Set(q, 0, 1, 1), 1, 0, 2);
    history, t := StepLong(history, t, q, 0, 2, 1);
    q := Set(Set(q, 0, 2, 2), 2, 0, 1);
    history, t := StepOwn(history, t, q, 1);
    q := Set(q, 1, 1, 1);
    history, t := StepShort(history, t, q, 1, 2, 0);
    q := Set(q, 1, 2, 2);
    history, t := StepShort(history, t, q, 2, 1, 0);
    q := Set(q, 2, 1, 1);
    history, t := StepOwn(history, t, q, 2);
    q := Set(q, 2, 2, 2);
    Ends(history, t, q);
    EveryFillingLoops(history, t);
  }

  predicate LeadsToSites(q: seq<seq<int>>)
    requires ThreeByThree(q)
  {
    forall x, d :: 0 <= x < 3 && 0 <= d < 3 ==> 0 <= q[x][d] < 3 && (x == d ==> q[x][d] == x)
  }

  lemma Ends(history: seq<Event>, t: Table, q: seq<seq<int>>)
    requires At(history, t, q) && ThreeByThree(q) && LeadsToSites(q)
    ensures Linked(TRIANGLE, Answers, BLANK, history, t) && AllPlaced(history) && Complete(t)
  {
    hide Linked, AllPlaced, Consistent, Complete, Reads, TRIANGLE, BLANK, LeadsToSites;
    StartsBlank();
    RunConsistent(history, t);
    ReadsComplete(t, q);
  }

  lemma ReadsComplete(t: Table, q: seq<seq<int>>)
    requires Consistent(t) && Reads(t, q) && LeadsToSites(q)
    ensures Complete(t)
  {
    hide Consistent, Reads, LeadsToSites, FullRows;
    RowsFull(t);
    forall x, d {:trigger t[x][d]} | x in t && d in t
      ensures d in t[x] && t[x][d] in t && (x == d ==> t[x][d] == x)
    {
      EntryLeads(t, q, x, d);
    }
  }

  lemma EntryLeads(t: Table, q: seq<seq<int>>, x: int, d: int)
    requires FullRows(t) && Reads(t, q) && LeadsToSites(q) && x in t && d in t
    ensures d in t[x] && t[x][d] in t && (x == d ==> t[x][d] == x)
  {
    assert t[x][d] == q[x][d];
  }
}
