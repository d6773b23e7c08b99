/** The centralised router: the leader fills the next-hop table, checks it and hands every site its row. */
module Centralised {
  import opened Wrappers
  import opened MapRange
  import opened Graphs
  import opened PathQueues
  import opened Finder
  import opened RouteTables
  import opened TableFilling
  import opened Candidates
  import opened FillHistory
  import opened RouteWire

  datatype RefreshError =
    | WeightsNotLoaded
    | NoForwardPath(site: int, target: int)
    | NoReturnPath(site: int, target: int)
    | NoRouteFits(site: int, target: int)
    | LoopDetected(site: int, target: int)

  /** The rows in `rows` are still to be filled, and of the row of `site` the entries for `cols`. */
  ghost predicate FilledBut(t: Table, rows: set<int>, site: int, cols: set<int>) {
    forall x, d {:trigger t[x][d]} ::
      x in t && d in t[x] && x !in rows && !(x == site && d in cols) ==> t[x][d] != UNSET
  }

  lemma PutFills(t: Table, t': Table, rows: set<int>, site: int, cols: set<int>, target: int)
    requires Grows(t, t') && FilledBut(t, rows, site, cols + {target})
    requires site in t' && target in t'[site] && t'[site][target] != UNSET
    ensures FilledBut(t', rows, site, cols)
  {
    forall x, d | x in t' && d in t'[x] && x !in rows && !(x == site && d in cols)
      ensures t'[x][d] != UNSET
    {
      assert (x == site && d == target) || t[x][d] != UNSET;
    }
  }

  lemma FilledIsComplete(t: Table)
    requires Consistent(t) && FilledBut(t, {}, 0, {})
    ensures Complete(t)
  {
    forall x, d | x in t && d in t
      ensures t[x][d] in t
    {
      assert t[x][d] != UNSET;
    }
  }

  /** The state of the fill loops: the events so far have led to the table, and all pairs handled were placed. */
  ghost predicate Filling(m: Matrix, measure: Measurements, blank: Table, history: seq<Event>, t: Table)
    requires Square(m)
  {
    && SameSites(blank, t) && Consistent(t)
    && Linked(m, measure, blank, history, t) && AllPlaced(history)
  }

  lemma FillingEvent(m: Matrix, measure: Measurements, blank: Table, history: seq<Event>, e: Event)
    requires Square(m) && Filling(m, measure, blank, history, e.before) && EventOk(m, measure, e)
    requires e.Handled? ==> e.placed
    ensures Filling(m, measure, blank, history + [e], e.after)
  {
    hide Consistent, Linked, HandledOk;
    LinkEvent(m, measure, blank, history, e);
    GrowsSites(e.before, e.after);
  }

  lemma FillingOwn(m: Matrix, measure: Measurements, blank: Table, history: seq<Event>, t: Table, x: int)
    requires Square(m) && Filling(m, measure, blank, history, t)
    requires x in t && x in t[x] && t[x][x] == UNSET
    ensures Filling(m, measure, blank, history + [Own(x, t, Put(t, x, x, x))], Put(t, x, x, x))
    ensures Grows(t, Put(t, x, x, x))
  {
    hide Consistent, Linked, Put, Grows;
    WriteSelf(t, x);
    FillingEvent(m, measure, blank, history, Own(x, t, Put(t, x, x, x)));
  }

  lemma StartFilling(m: Matrix, measure: Measurements, blank: Table)
    requires Square(m) && Consistent(blank)
    ensures Filling(m, measure, blank, [], blank) && FilledBut(blank, blank.Keys, 0, {})
  {
  }

  lemma SitesOf(m: Matrix, measure: Measurements, blank: Table, history: seq<Event>, t: Table, site: int)
    requires Square(m) && Filling(m, measure, blank, history, t) && site in blank
    ensures SameSites(blank, t) && site in t && Consistent(t)
    ensures forall d :: d in t[site] <==> d in blank
  {
  }

  lemma StartRow(t: Table, rows: set<int>, site: int)
    requires FilledBut(t, rows + {site}, 0, {}) && site in t
    ensures FilledBut(t, rows, site, t[site].Keys)
  {
  }

  lemma AlreadyFilled(t: Table, rows: set<int>, site: int, cols: set<int>, target: int)
    requires FilledBut(t, rows, site, cols + {target})
    requires site in t && target in t[site] && t[site][target] != UNSET
    ensures FilledBut(t, rows, site, cols)
  {
  }

  lemma RowDone(t: Table, rows: set<int>, site: int)
    requires FilledBut(t, rows, site, {})
    ensures FilledBut(t, rows, 0, {})
  {
  }

  /** How a refresh ended: refused with an error, or handed out, completely or up to the first failing call. */
  datatype Outcome =
    | Refused(error: RefreshError)
    | Distributed(table: Table)
    | DistributionFailed(table: Table)

  /** What becomes of one call to a site: it arrives, it does not, or it arrives but the reply is lost. */
  datatype Rpc = Answered | Unreachable | ReplyLost

  /**
   Why the leader gives up filling: a site has no path to another, or none back, or for the last pair handled no
   measured combination of the best paths fits.
   */
  ghost predicate Justified(m: Matrix, history: seq<Event>, e: RefreshError)
    requires Square(m)
  {
    match e
    case NoForwardPath(s, d) => AllPlaced(history) && s >= 0 && d >= 0 && forall p :: !SimplePath(m, s, d, p)
    case NoReturnPath(s, d) => AllPlaced(history) && s >= 0 && d >= 0 && forall p :: !SimplePath(m, d, s, p)
    case NoRouteFits(s, d) =>
      && |history| > 0
      && AllPlaced(history[..|history| - 1])
      && var last := history[|history| - 1];
         last.Handled? && last.site == s && last.target == d && !last.placed
    case _ => false
  }

  /** The reason for which one pair could not be filled is the reason for which filling stops. */
  lemma StopFilling(m: Matrix, measure: Measurements, blank: Table, history: seq<Event>, t: Table, e: Event,
                    error: RefreshError) returns (history': seq<Event>, last: Table)
    requires Square(m) && Filling(m, measure, blank, history, t) && Justified(m, [e], error)
    requires error.NoRouteFits? ==> e.before == t && EventOk(m, measure, e)
    ensures history <= history' && Linked(m, measure, blank, history', last) && Justified(m, history', error)
  {
    hide Consistent, Linked, EventOk;
    history', last := history, t;
    if error.NoRouteFits? {
      LinkEvent(m, measure, blank, history, e);
      history', last := history + [e], e.after;
      assert history'[..|history|] == history;
    }
  }

  /** What a site that was sent `row` has installed: some 32-bit rendering of it. */
  ghost predicate Received(routes: Row, row: Row) {
    exists wire :: Truncates(row, wire) && Installs(routes, wire)
  }

  /** For rows of 32-bit numbers the site has installed the row itself. */
  lemma ReceivedExactly(routes: Row, row: Row)
    requires Received(routes, row) && InInt32(row)
    ensures Installs(routes, row)
  {
    var wire :| Truncates(row, wire) && Installs(routes, wire);
    FaithfulIffInInt32(row, wire);
  }

  /**
   Network-wide delivery: once every site has received its row of a table that delivers, and site numbers are 32-bit
   numbers, forwarding by the installed routes brings traffic from every site to every site.
   */
  lemma NetworkDelivers(t: Table, installed: map<int, Row>, s: int, d: int) returns (k: nat)
    requires Complete(t) && Delivers(t) && s in t && d in t
    requires forall x :: x in t ==> 0 <= x < 0x8000_0000
    requires forall x :: x in t ==> x in installed && Received(installed[x], t[x])
    ensures k < |t| && Forwarded(installed, d, s, k) == d
  {
    hide Received, Complete, Delivers, InInt32, Installs;
    forall x | x in t
      ensures Installs(installed[x], t[x])
    {
      RowInRange(t, x);
      ReceivedExactly(installed[x], t[x]);
    }
    k := InstalledDelivers(t, installed, s, d);
  }

  lemma RowInRange(t: Table, x: int)
    requires Complete(t) && x in t && forall y :: y in t ==> 0 <= y < 0x8000_0000
    ensures InInt32(t[x])
  {
    hide Int32;
    forall d | d in t[x]
      ensures Int32(d) == d && Int32(t[x][d]) == t[x][d]
    {
      assert d in t && t[x][d] in t;
    }
  }

  /** `s` is an end of one of the paths. */
  ghost predicate IsSite(paths: seq<(nat, nat)>, s: int) {
    exists i :: 0 <= i < |paths| && (paths[i].0 == s || paths[i].1 == s)
  }

  /** The table of a refresh before anything is filled in: all ends of paths, all entries unset. */
  ghost predicate Blank(t: Table, paths: seq<(nat, nat)>) {
    && (forall s :: s in t <==> IsSite(paths, s))
    && Consistent(t) && AllUnset(t)
  }

  /** The table a refresh hands out: it delivers, every pair handled was placed, and nothing else was written. */
  ghost predicate Sound(t: Table, paths: seq<(nat, nat)>, history: seq<Event>) {
    && (forall s :: s in t <==> IsSite(paths, s))
    && Complete(t) && Delivers(t)
    && AllPlaced(history) && AllProposed(history, t)
  }

  /** Every entry for another site sends traffic along a path that was reported with a weight. */
  ghost predicate OnReported(t: Table, weightPaths: seq<(nat, nat)>) {
    forall x, d :: x in t && d in t[x] && x != d ==> IsReported(weightPaths, x, t[x][d])
  }

  ghost predicate IsReported(weightPaths: seq<(nat, nat)>, x: int, v: int) {
    exists i :: 0 <= i < |weightPaths| && weightPaths[i].0 == x && weightPaths[i].1 == v
  }

  lemma ProposedIsReported(m: Matrix, measure: Measurements, blank: Table, history: seq<Event>, t: Table,
                           weightPaths: seq<(nat, nat)>, costs: seq<Option<Weight>>)
    requires |costs| == |weightPaths| && Loaded(m, weightPaths, costs, |weightPaths|)
    requires Consistent(blank) && Linked(m, measure, blank, history, t) && AllProposed(history, t)
    ensures OnReported(t, weightPaths)
  {
    hide Consistent, Linked, Proposed, LastOf;
    forall x, d | x in t && d in t[x] && x != d
      ensures IsReported(weightPaths, x, t[x][d])
    {
      var v := t[x][d];
      ProposedIsEdge(m, measure, blank, history, t, x, d, v);
      assert (x as nat, v as nat) in weightPaths[..|weightPaths|];
      var i :| 0 <= i < |weightPaths| && weightPaths[i] == (x as nat, v as nat);
    }
  }

  /** Why the leader refuses. */
  ghost predicate Refusal(m: Matrix, costs: seq<Option<Weight>>, history: seq<Event>, t: Table, e: RefreshError)
    requires Square(m)
  {
    match e
    case WeightsNotLoaded => history == [] && exists i :: 0 <= i < |costs| && !Usable(costs[i])
    case LoopDetected(s, d) => AllPlaced(history) && Complete(t) && !Delivers(t) && BadEntry(t, s, d)
    case _ => Justified(m, history, e)
  }

  method InitialSites(paths: seq<(nat, nat)>) returns (sites: Table)
    ensures Blank(sites, paths)
  {
    var keys: set<int> := {};
    for i := 0 to |paths|
      invariant forall s :: s in keys <==> IsSite(paths[..i], s)
    {
      assert paths[..i + 1] == paths[..i] + [paths[i]];
      SiteOneMore(paths[..i], paths[i]);
      keys := keys + {paths[i].0} + {paths[i].1};
    }
    assert paths[..|paths|] == paths;
    var row: Row := map d | d in keys :: UNSET;
    sites := map s | s in keys :: row;
  }

  lemma SiteOneMore(paths: seq<(nat, nat)>, path: (nat, nat))
    ensures forall s :: IsSite(paths + [path], s) <==> IsSite(paths, s) || s == path.0 || s == path.1
  {
    var all := paths + [path];
    forall s
      ensures IsSite(all, s) <==> IsSite(paths, s) || s == path.0 || s == path.1
    {
      if IsSite(paths, s) {
        var i :| 0 <= i < |paths| && (paths[i].0 == s || paths[i].1 == s);
        assert all[i].0 == s || all[i].1 == s;
      }
      assert all[|paths|] == path;
    }
  }

  /**
   What a refresh relies on: site numbers below the size of the graph, costs that are not negative, and paths with
   weights only between sites that the other query has reported as well.
   */
  ghost predicate CanRefresh(size: nat, sitePaths: seq<(nat, nat)>, weightPaths: seq<(nat, nat)>,
                             costs: seq<Option<Weight>>)
  {
    && |costs| == |weightPaths|
    && (forall i :: 0 <= i < |sitePaths| ==> sitePaths[i].0 < size && sitePaths[i].1 < size)
    && (forall i :: 0 <= i < |weightPaths| ==>
          IsSite(sitePaths, weightPaths[i].0) && IsSite(sitePaths, weightPaths[i].1))
    && (forall i :: 0 <= i < |costs| && costs[i].Some? && costs[i].value.Fin? ==> costs[i].value.value >= 0.0)
  }

  lemma SitesInRange(paths: seq<(nat, nat)>, n: nat)
    requires forall i :: 0 <= i < |paths| ==> paths[i].0 < n && paths[i].1 < n
    ensures forall s :: IsSite(paths, s) ==> 0 <= s < n
  {
  }

  lemma LoadedWithin(m: Matrix, sitePaths: seq<(nat, nat)>, paths: seq<(nat, nat)>, costs: seq<Option<Weight>>,
                     sites: Table)
    requires |costs| == |paths| && Loaded(m, paths, costs, |paths|)
    requires forall s :: s in sites <==> IsSite(sitePaths, s)
    requires forall i :: 0 <= i < |paths| ==> IsSite(sitePaths, paths[i].0) && IsSite(sitePaths, paths[i].1)
    ensures EdgesWithin(m, sites)
  {
    forall u: nat, v: nat | Edge(m, u, v)
      ensures u in sites && v in sites
    {
      assert (u, v) in paths[..|paths|];
      var i :| 0 <= i < |paths| && paths[i] == (u, v);
    }
  }

  lemma EdgesStayWithin(m: Matrix, t: Table, t': Table)
    requires Square(m) && EdgesWithin(m, t) && SameSites(t, t')
    ensures EdgesWithin(m, t')
  {
  }

  class CentralisedRouter {
    var siteRoutes: Row

    const graph: Graph

    constructor (graph: Graph)
      ensures siteRoutes == map[] && this.graph == graph
    {
      siteRoutes := map[];
      this.graph := graph;
    }

    /**
     UpdateSiteRoutes: replace the routes unless nothing seems to have changed.  A new destination routed to 0 does
     not count as a change, and neither does it change any lookup.
     */
    method UpdateSiteRoutes(routes: Row) returns (changed: bool)
      modifies `siteRoutes
      ensures changed <==> (exists d :: d in routes && Lookup(old(siteRoutes), d) != routes[d])
                           || (exists d :: d in old(siteRoutes) && d !in routes)
      ensures siteRoutes == if changed then routes else old(siteRoutes)
      ensures Installs(siteRoutes, routes)
    {
      changed := false;
      var left := routes.Keys;
      while left != {} && !changed
        invariant siteRoutes == old(siteRoutes) && left <= routes.Keys
        invariant changed ==> exists d :: d in routes && Lookup(siteRoutes, d) != routes[d]
        invariant !changed ==> forall d :: d in routes && d !in left ==> Lookup(siteRoutes, d) == routes[d]
        decreases left
      {
        var k;
        k, left := NextKey(left);
        if Lookup(siteRoutes, k) != routes[k] {
          changed := true;
        }
      }
      if !changed {
        left := siteRoutes.Keys;
        while left != {} && !changed
          invariant siteRoutes == old(siteRoutes) && left <= siteRoutes.Keys
          invariant changed ==> exists d :: d in siteRoutes && d !in routes
          invariant !changed ==> forall d :: d in siteRoutes && d !in left ==> d in routes
          decreases left
        {
          var k;
          k, left := NextKey(left);
          if k !in routes {
            changed := true;
          }
        }
      }
      if changed {
        siteRoutes := CopyMap(routes);
      }
    }

    /** Fill the entry of `site` for `target` with the fastest round trip that fits. */
    method FillPair(t: Table, site: nat, target: nat, measure: Measurements)
      returns (r: Result<Table, RefreshError>, ghost e: Event)
      requires graph.Valid() && EdgesWithin(graph.matrix, t) && Consistent(t)
      requires site != target && site in t && target in t[site] && site < graph.size && target < graph.size
      requires t[site][target] == UNSET
      ensures r.Success? || r.error.NoRouteFits? ==>
                && EventOk(graph.matrix, measure, e)
                && e.Handled? && e.site == site && e.target == target && e.before == t && e.placed == r.Success?
      ensures r.Success? ==> r.value == e.after
      ensures r.Failure? ==> Justified(graph.matrix, [e], r.error)
      ensures r.Success? ==>
                && Consistent(r.value) && Grows(t, r.value)
                && site in r.value && target in r.value[site] && r.value[site][target] != UNSET
      ensures r.Failure? ==>
                r.error in {NoForwardPath(site, target), NoReturnPath(site, target), NoRouteFits(site, target)}
    {
      hide Consistent, Grows, Attempts, FastestFitting, TripFits, Trip, Measured, EdgesWithin, TopN, IsResultList;
      RowsFull(t);
      e := Own(site, t, t);
      GrowsReflexive(t);
      var fPath := graph.GetTopNShortestPaths(site, target, TOP_N);
      if fPath.Failure? {
        return Failure(NoForwardPath(site, target)), e;
      }
      var rPath := graph.GetTopNShortestPaths(target, site, TOP_N);
      if rPath.Failure? {
        return Failure(NoReturnPath(site, target)), e;
      }
      var results := MeasureAll(site, target, measure, fPath.value, rPath.value);
      MeasuredBy(graph.matrix, site, target, measure, fPath.value, rPath.value, results);
      ResultsAreTrips(graph.matrix, t, site, target, measure, fPath.value, rPath.value, results);
      if |results| == 0 {
        StartSelecting(t, site, target, results);
        e := Handled(site, target, t, t, [], [], false);
        return Failure(NoRouteFits(site, target)), e;
      }
      var t', success;
      ghost var best, tried;
      t', success, best, tried := SelectRoute(t, site, target, results);
      e := Handled(site, target, t, t', results, tried, success);
      if !success {
        return Failure(NoRouteFits(site, target)), e;
      }
      return Success(t'), e;
    }

    /**
     Fill every entry that is still unset when its turn comes; rows and columns come in any order.  The history says
     of every pair handled what was tried and chosen.
     */
    method FillTable(blank: Table, measure: Measurements)
      returns (r: Result<Table, RefreshError>, ghost history: seq<Event>, ghost last: Table)
      requires graph.Valid() && EdgesWithin(graph.matrix, blank) && Consistent(blank)
      requires forall x :: x in blank ==> 0 <= x < graph.size
      ensures Linked(graph.matrix, measure, blank, history, last) && RunHolds(blank, history, last)
      ensures SameSites(blank, last) && Consistent(last)
      ensures r.Success? ==> r.value == last && AllPlaced(history)
      ensures r.Success? ==> Complete(r.value) && Grows(blank, r.value)
      ensures r.Failure? ==> Justified(graph.matrix, history, r.error)
    {
      hide Consistent, Grows, Linked, RunHolds, EdgesWithin, Justified, Complete, Put;
      last, history := blank, [];
      var t, rows := blank, blank.Keys;
      StartFilling(graph.matrix, measure, blank);
      while rows != {}
        invariant Filling(graph.matrix, measure, blank, history, t)
        invariant (forall x :: x in rows ==> x in blank) && FilledBut(t, rows, 0, {})
        decreases rows
      {
        var site;
        site, rows := NextKey(rows);
        r, history, last := FillRow(blank, t, history, site, rows, measure);
        if r.Failure? {
          RunGrows(graph.matrix, measure, blank, history, last);
          GrowsSites(blank, last);
          LinkedHolds(graph.matrix, measure, blank, history, last);
          return;
        }
        t := r.value;
      }
      last, r := t, Success(t);
      FilledIsComplete(last);
      RunGrows(graph.matrix, measure, blank, history, last);
      LinkedHolds(graph.matrix, measure, blank, history, last);
    }

    /** The inner loop of FillTable: the row of one site. */
    method FillRow(ghost blank: Table, t: Table, ghost history: seq<Event>, site: int, ghost rows: set<int>,
                   measure: Measurements)
      returns (r: Result<Table, RefreshError>, ghost history': seq<Event>, ghost last: Table)
      requires graph.Valid() && EdgesWithin(graph.matrix, blank)
      requires forall x :: x in blank ==> 0 <= x < graph.size
      requires Filling(graph.matrix, measure, blank, history, t) && site in blank
      requires FilledBut(t, rows + {site}, 0, {})
      ensures history <= history' && Linked(graph.matrix, measure, blank, history', last)
      ensures r.Success? ==>
                r.value == last && Filling(graph.matrix, measure, blank, history', last)
      ensures r.Success? ==> FilledBut(r.value, rows, 0, {}) && Consistent(r.value) && SameSites(blank, r.value)
      ensures r.Failure? ==> Justified(graph.matrix, history', r.error)
    {
      hide Consistent, Grows, Linked, HandledOk, Justified, Put, EdgesWithin;
      history' := history;
      var t' := t;
      SitesOf(graph.matrix, measure, blank, history, t, site);
      var cols := t[site].Keys;
      StartRow(t, rows, site);
      while cols != {}
        invariant Filling(graph.matrix, measure, blank, history', t') && history <= history'
        invariant (forall d :: d in cols ==> d in blank) && FilledBut(t', rows, site, cols)
        decreases cols
      {
        var target;
        ghost var before := cols;
        target, cols := NextKey(cols);
        assert before == cols + {target};
        SitesOf(graph.matrix, measure, blank, history', t', site);
        var via := t'[site][target];
        if via != UNSET {
          AlreadyFilled(t', rows, site, cols, target);
          continue;
        }
        ghost var now := t';
        if site == target {
          FillingOwn(graph.matrix, measure, blank, history', t', site);
          history' := history' + [Own(site, t', Put(t', site, site, site))];
          t' := Put(t', site, target, site);
          PutFills(now, t', rows, site, cols, target);
          continue;
        }
        EdgesStayWithin(graph.matrix, blank, t');
        ghost var e;
        r, e := FillPair(t', site, target, measure);
        if r.Failure? {
          history', last := StopFilling(graph.matrix, measure, blank, history', t', e, r.error);
          return;
        }
        FillingEvent(graph.matrix, measure, blank, history', e);
        GrowsReflexive(e.after);
        PlacedFilled(graph.matrix, measure, e, e.after);
        t', history' := r.value, history' + [e];
        PutFills(now, t', rows, site, cols, target);
      }
      RowDone(t', rows, site);
      last, r := t', Success(t');
    }

    /** The receiving end of Distribute. */
    method UpdateRoute(wire: Row)
      modifies `siteRoutes
      ensures Installs(siteRoutes, wire)
    {
      var route := ConvertToIntMap(wire);
      var _ := UpdateSiteRoutes(route);
    }

    /**
     Hand every site its row, in any order, and stop at the first call that is not answered.  The row goes through
     the 32-bit wire format.
     */
    method Distribute(t: Table, peers: map<int, CentralisedRouter>, rpc: int -> Rpc) returns (ok: bool)
      requires forall s :: s in t ==> s in peers
      requires forall s, s' :: s in peers && s' in peers && s != s' ==> peers[s] != peers[s']
      modifies set s | s in peers :: peers[s]
      ensures ok <==> forall s :: s in t ==> rpc(s) == Answered
      ensures ok ==> forall s :: s in t ==> Received(peers[s].siteRoutes, t[s])
      ensures forall s :: s in t ==>
                Received(peers[s].siteRoutes, t[s]) || peers[s].siteRoutes == old(peers[s].siteRoutes)
      ensures forall s :: s in peers && s !in t ==> peers[s].siteRoutes == old(peers[s].siteRoutes)
    {
      var left := t.Keys;
      while left != {}
        invariant forall s :: s in left ==> s in t
        invariant forall s :: s in t && s !in left ==> rpc(s) == Answered && Received(peers[s].siteRoutes, t[s])
        invariant forall s :: s in left ==> peers[s].siteRoutes == old(peers[s].siteRoutes)
        invariant forall s :: s in peers && s !in t ==> peers[s].siteRoutes == old(peers[s].siteRoutes)
        decreases left
      {
        var site;
        site, left := NextKey(left);
        if rpc(site) == Unreachable {
          return false;
        }
        var wire := ConvertToInt32Map(t[site]);
        peers[site].UpdateRoute(wire);
        assert Received(peers[site].siteRoutes, t[site]);
        if rpc(site) == ReplyLost {
          return false;
        }
      }
      return true;
    }

    /** Fill the table for the sites of one query with the weights of another, and check it for loops. */
    method BuildTable(sitePaths: seq<(nat, nat)>, weightPaths: seq<(nat, nat)>, costs: seq<Option<Weight>>,
                      measure: Measurements)
      returns (r: Result<Table, RefreshError>, ghost blank: Table, ghost history: seq<Event>, ghost filled: Table)
      requires graph.Sized() && CanRefresh(graph.size, sitePaths, weightPaths, costs)
      modifies graph`matrix
      ensures graph.Valid() && Blank(blank, sitePaths)
      ensures r == Failure(WeightsNotLoaded) <==> exists i :: 0 <= i < |costs| && !Usable(costs[i])
      ensures r != Failure(WeightsNotLoaded) ==> Loaded(graph.matrix, weightPaths, costs, |weightPaths|)
      ensures Linked(graph.matrix, measure, blank, history, filled) && RunHolds(blank, history, filled)
      ensures r.Success? ==>
                r.value == filled && Sound(filled, sitePaths, history) && OnReported(filled, weightPaths)
      ensures r.Failure? ==> Refusal(graph.matrix, costs, history, filled, r.error)
    {
      hide Consistent, Complete, Delivers, Linked, RunHolds, BadEntry, IsSite, Loaded, EdgesWithin, AllProposed,
           OnReported;
      var sites := InitialSites(sitePaths);
      blank, history, filled := sites, [], sites;
      SitesInRange(sitePaths, graph.size);
      var error := graph.RefreshWeights(weightPaths, costs);
      if error.Some? {
        StartFilling(graph.matrix, measure, blank);
        LinkedHolds(graph.matrix, measure, blank, history, filled);
        return Failure(WeightsNotLoaded), blank, history, filled;
      }
      LoadedWithin(graph.matrix, sitePaths, weightPaths, costs, sites);
      r, history, filled := FillTable(sites, measure);
      if r.Failure? {
        return;
      }
      var loop := CheckForLoops(r.value);
      DeliversIffLoopFree(filled);
      if loop.Some? {
        return Failure(LoopDetected(loop.value.0, loop.value.1)), blank, history, filled;
      }
      NothingElseWritten(blank, history, filled);
      ProposedIsReported(graph.matrix, measure, blank, history, filled, weightPaths, costs);
    }

    /**
     One refresh: build the table and hand it out.  A failure to distribute is only logged by the source; it is an
     outcome of its own here.
     */
    method Refresh(sitePaths: seq<(nat, nat)>, weightPaths: seq<(nat, nat)>, costs: seq<Option<Weight>>,
                   measure: Measurements, peers: map<int, CentralisedRouter>, rpc: int -> Rpc)
      returns (outcome: Outcome, ghost blank: Table, ghost history: seq<Event>, ghost filled: Table)
      requires graph.Sized() && CanRefresh(graph.size, sitePaths, weightPaths, costs)
      requires forall s :: IsSite(sitePaths, s) ==> s in peers
      requires forall s, s' :: s in peers && s' in peers && s != s' ==> peers[s] != peers[s']
      modifies graph`matrix, set s | s in peers :: peers[s]
      ensures graph.Valid() && Blank(blank, sitePaths)
      ensures outcome == Refused(WeightsNotLoaded) <==> exists i :: 0 <= i < |costs| && !Usable(costs[i])
      ensures outcome != Refused(WeightsNotLoaded) ==> Loaded(graph.matrix, weightPaths, costs, |weightPaths|)
      ensures Linked(graph.matrix, measure, blank, history, filled) && RunHolds(blank, history, filled)
      ensures outcome.Refused? ==>
                && Refusal(graph.matrix, costs, history, filled, outcome.error)
                && forall s :: s in peers ==> peers[s].siteRoutes == old(peers[s].siteRoutes)
      ensures !outcome.Refused? ==>
                outcome.table == filled && Sound(filled, sitePaths, history) && OnReported(filled, weightPaths)
      ensures outcome.Distributed? ==> forall s :: s in filled ==> Received(peers[s].siteRoutes, filled[s])
      ensures outcome.DistributionFailed? ==> exists s :: s in filled && rpc(s) != Answered
    {
      hide Complete, Delivers, Linked, RunHolds, IsSite, Received, Refusal, AllProposed, OnReported, Loaded,
           Usable;
      var r;
      r, blank, history, filled := BuildTable(sitePaths, weightPaths, costs, measure);
      if r.Failure? {
        return Refused(r.error), blank, history, filled;
      }
      var ok := Distribute(r.value, peers, rpc);
      outcome := if ok then Distributed(r.value) else DistributionFailed(r.value);
    }
  }
}
