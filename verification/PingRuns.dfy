/** Which measurements can be completed: the runs that keep all the results asked for. */
module PingRuns {
  import opened Wrappers
  import opened Codec
  import opened PathPing
  import opened PingNetwork

  /** The site at position `i` of the path has an address for the next one. */
  predicate KnowsNext(c: Config, path: seq<uint16>, vers: seq<uint16>, i: nat)
    requires i + 1 < |path| == |vers|
  {
    (path[i + 1], vers[i + 1]) in c(path[i]).peers
  }

  /** The flag pathping.max of the site at position `i`, cut to 16 bits, allows the path. */
  predicate Permits(c: Config, path: seq<uint16>, i: nat)
    requires i < |path|
  {
    |path| <= Uint16(c(path[i]).maxHops)
  }

  /** A packet can have been sent from the site at position `j`. */
  ghost predicate SentFrom(c: Config, path: seq<uint16>, vers: seq<uint16>, j: nat)
    requires j + 1 < |path| == |vers|
  {
    && (forall i: nat :: i <= j ==> KnowsNext(c, path, vers, i))
    && (forall i: nat :: 0 < i <= j ==> Permits(c, path, i))
  }

  /** Packets can travel the whole path. */
  ghost predicate Passable(c: Config, path: seq<uint16>, vers: seq<uint16>)
    requires |path| == |vers|
  {
    && |path| <= 16
    && (forall i: nat :: i + 1 < |path| ==> KnowsNext(c, path, vers, i))
    && (forall i: nat :: 0 < i < |path| ==> Permits(c, path, i))
  }

  // ---------- Results come only over passable paths ----------

  ghost predicate Journey(c: Config, f: Flight, vers: seq<uint16>) {
    exists p :: OnPath(p, f.key) && Carries(f, p) && p.pathVer == vers && SentFrom(c, p.path, vers, p.currentHop)
  }

  ghost predicate TestTravelled(c: Config, s: Net, key: TestKey)
    requires key in s.tests
  {
    var t := s.tests[key];
    |t.vers| == |key.path| && (t.arrivals != [] ==> Passable(c, key.path, t.vers))
  }

  ghost predicate Travelled(c: Config, s: Net) {
    && (forall f :: f in s.flying ==> f.key in s.tests && Journey(c, f, s.tests[f.key].vers))
    && (forall k :: k in s.tests ==> TestTravelled(c, s, k))
  }

  /** Nothing is recorded for `key` or put into the network, whatever becomes of other counters. */
  ghost predicate Quieter(s: Net, s': Net) {
    && (forall f :: f in s'.flying ==> f in s.flying)
    && s'.tests.Keys == s.tests.Keys
    && forall k :: k in s.tests ==> s'.tests[k].vers == s.tests[k].vers && s'.tests[k].arrivals == s.tests[k].arrivals
  }

  lemma QuieterTravelled(c: Config, s: Net, s': Net)
    requires Travelled(c, s) && Quieter(s, s')
    ensures Travelled(c, s')
  {
    hide Journey;
    forall k | k in s'.tests
      ensures TestTravelled(c, s', k)
    {
      assert k in s.tests && TestTravelled(c, s, k);
    }
    forall f | f in s'.flying
      ensures f.key in s'.tests && Journey(c, f, s'.tests[f.key].vers)
    {
      assert f.key in s.tests;
    }
  }

  lemma AfterTravelled(c: Config, s: Net, key: TestKey, node: uint16, sent: nat, trace: Trace, r: Reaction,
                       average: int, now: int)
    requires Travelled(c, s) && key in s.tests
    requires r.Relay? ==> Journey(c, Flight(r.datagram, key, sent + 1, Later(trace, average)), s.tests[key].vers)
    requires r.Record? ==> r.key == key && Passable(c, key.path, s.tests[key].vers)
    ensures Travelled(c, After(s, key, node, sent, trace, r, average, now))
  {
    hide Journey, Passable;
    var s' := After(s, key, node, sent, trace, r, average, now);
    if r.Relay? || r.Record? {
      forall k | k in s'.tests
        ensures TestTravelled(c, s', k)
      {
        assert TestTravelled(c, s, k);
      }
    } else {
      QuieterTravelled(c, s, s');
    }
  }

  lemma EmitTravelled(c: Config, s: Net, step: Step)
    requires Addressed(c) && Invariant(s) && Travelled(c, s) && step.Emit? && Enabled(c, s, step)
    ensures Travelled(c, Next(c, s, step))
  {
    hide Forward, Travelled, Balanced, Clean, OwingOne, Encode, WrapInt64, Journey, Passable, CheckRequest;
    var key, t := step.key, s.tests[step.key];
    CreateOne(s, key);
    var server := c(key.path[0]);
    var created := s.(tests := s.tests[key := t.(created := t.created + 1)]);
    QuieterTravelled(c, s, created);
    var p := NewPacket(server, key.path, t.vers, key.id, t.created, step.clock);
    var trace := Trace(t.created, step.clock, 0);
    ForwardOnPath(server, p, key, trace, true, step.average, step.writable);
    var r := Forward(server, p, true, step.average, step.writable);
    if r.Relay? {
      assert KnowsNext(c, key.path, t.vers, 0);
      JourneyOn(c, key, Advance(p, true, step.average), Later(trace, step.average), t.vers);
    }
    assert Next(c, s, step) == After(created, key, server.id, 0, trace, r, step.average, 0);
    AfterTravelled(c, created, key, server.id, 0, trace, r, step.average, 0);
  }

  /** A packet forwarded by a site that knows the next one is on its journey. */
  lemma JourneyOn(c: Config, key: TestKey, q: Packet, trace: Trace, vers: seq<uint16>)
    requires OnPath(q, key) && Stamped(q, trace) && q.pathVer == vers && KnowsNext(c, q.path, vers, q.currentHop)
    requires q.currentHop > 0 ==> SentFrom(c, q.path, vers, q.currentHop - 1) && Permits(c, q.path, q.currentHop)
    ensures Journey(c, Flight(Datagram(key.path[q.currentHop + 1], Encode(q)), key, q.currentHop + 1, trace), vers)
  {
    hide Encode;
    var f := Flight(Datagram(key.path[q.currentHop + 1], Encode(q)), key, q.currentHop + 1, trace);
    assert Carries(f, q);
  }

  lemma DeliverTravelled(c: Config, s: Net, step: Step)
    requires Addressed(c) && Travelled(c, s) && step.Deliver? && Enabled(c, s, step)
    ensures Travelled(c, Next(c, s, step))
  {
    hide Forward, Travelled, Encode, WrapInt64, React, Advance, Uint16;
    var f := s.flying[step.i];
    var taken := s.(flying := Without(s.flying, step.i));
    QuieterTravelled(c, s, taken);
    FlightTravelled(c, s, f);
    var vers := s.tests[f.key].vers;
    var p :| OnPath(p, f.key) && Carries(f, p) && p.pathVer == vers && SentFrom(c, p.path, vers, p.currentHop);
    ReactTo(c, f, p, step.now, step.average, step.writable);
    var server := c(f.datagram.to);
    var r := React(server, f.datagram.bytes, step.now, step.average, step.writable);
    if r != Discard {
      assert Permits(c, p.path, p.currentHop + 1);
      if p.currentHop + 2 < |p.path| {
        ForwardOnPath(server, p, f.key, f.trace, false, step.average, step.writable);
        if r.Relay? {
          JourneyOn(c, f.key, Advance(p, false, step.average), Later(f.trace, step.average), vers);
        }
      }
    }
    AfterTravelled(c, taken, f.key, f.datagram.to, f.transmissions, f.trace, r, step.average, step.now);
  }

  lemma FlightTravelled(c: Config, s: Net, f: Flight)
    requires Travelled(c, s) && f in s.flying
    ensures f.key in s.tests && Journey(c, f, s.tests[f.key].vers)
  {
  }

  lemma BeginTravelled(c: Config, s: Net, step: Step)
    requires Travelled(c, s) && step.Begin? && Enabled(c, s, step)
    ensures Travelled(c, Next(c, s, step))
  {
    hide Journey;
    var s' := Next(c, s, step);
    forall k | k in s'.tests
      ensures TestTravelled(c, s', k)
    {
      assert k in s.tests ==> TestTravelled(c, s, k);
    }
  }

  lemma StepTravelled(c: Config, s: Net, step: Step)
    requires Addressed(c) && Invariant(s) && Travelled(c, s) && Enabled(c, s, step)
    ensures Travelled(c, Next(c, s, step))
  {
    hide Travelled, Invariant, Next;
    match step
    case Begin(_, _, _, _, _) => BeginTravelled(c, s, step);
    case Emit(_, _, _, _) => EmitTravelled(c, s, step);
    case Deliver(_, _, _, _) => DeliverTravelled(c, s, step);
    case _ => OtherTravelled(c, s, step);
  }

  lemma OtherTravelled(c: Config, s: Net, step: Step)
    requires Travelled(c, s) && (step.Drop? || step.Remove?) && Enabled(c, s, step)
    ensures Travelled(c, Next(c, s, step))
  {
    hide Travelled;
    QuieterTravelled(c, s, Next(c, s, step));
  }

  lemma {:induction false} RunTravelled(c: Config, steps: seq<Step>)
    requires Addressed(c)
    ensures Travelled(c, Final(c, steps))
  {
    hide Travelled, Invariant;
    if steps != [] {
      var init, step := steps[..|steps| - 1], steps[|steps| - 1];
      RunTravelled(c, init);
      RunKeeps(c, init);
      if Enabled(c, Final(c, init), step) {
        StepTravelled(c, Final(c, init), step);
      }
    } else {
      NothingTravelled(c);
    }
  }

  lemma NothingTravelled(c: Config)
    ensures Travelled(c, EMPTY_NET)
  {
  }

  // ---------- A passable path can be measured ----------

  lemma Extend(c: Config, steps: seq<Step>, step: Step)
    requires Enabled(c, Final(c, steps), step)
    ensures Final(c, steps + [step]) == Next(c, Final(c, steps), step)
  {
    assert (steps + [step])[..|steps|] == steps;
  }

  /** `n` packets of the test have come back, and `created` have been sent. */
  ghost predicate Counted(s: Net, key: TestKey, vers: seq<uint16>, want: int, created: nat, n: nat)
  {
    && key in s.tests && s.tests[key] == Test(vers, want, created, 0, s.tests[key].arrivals, 0)
    && |s.tests[key].arrivals| == n
    && |key.path| > 0 && Kept(s, key) == n
  }

  ghost predicate BetweenPackets(s: Net, key: TestKey, vers: seq<uint16>, want: int, n: nat) {
    s.flying == [] && Counted(s, key, vers, want, n, n)
  }

  /** The only datagram in flight is that of packet number `n`, sent from the site at position `j`. */
  ghost predicate Underway(s: Net, key: TestKey, vers: seq<uint16>, want: int, n: nat, j: nat) {
    && |s.flying| == 1 && s.flying[0].key == key && Counted(s, key, vers, want, n + 1, n)
    && exists p :: OnPath(p, key) && Carries(s.flying[0], p) && p.pathVer == vers && p.currentHop == j
  }

  lemma SendOne(c: Config, steps: seq<Step>, key: TestKey, vers: seq<uint16>, want: int, n: nat)
    returns (steps': seq<Step>)
    requires Addressed(c) && ClosedPath(key.path) && |vers| == |key.path| && Passable(c, key.path, vers)
    requires BetweenPackets(Final(c, steps), key, vers, want, n) && n < want <= 0xFFFF
    ensures Underway(Final(c, steps'), key, vers, want, n, 0)
  {
    hide Forward, Encode, WrapInt64, Final;
    var s := Final(c, steps);
    var step := Emit(key, 0, 0, true);
    steps' := steps + [step];
    Extend(c, steps, step);
    var server := c(key.path[0]);
    var p := NewPacket(server, key.path, vers, key.id, n, 0);
    ForwardOnPath(server, p, key, Trace(n, 0, 0), true, 0, true);
    assert KnowsNext(c, key.path, vers, 0);
  }

  /** Deliver the datagram in flight until its packet is recorded. */
  lemma {:induction false} CarryOne(c: Config, steps: seq<Step>, key: TestKey, vers: seq<uint16>, want: int, n: nat,
                                    j: nat)
    returns (steps': seq<Step>)
    requires Addressed(c) && ClosedPath(key.path) && |vers| == |key.path| && Passable(c, key.path, vers)
    requires j + 1 < |key.path| && Underway(Final(c, steps), key, vers, want, n, j)
    ensures BetweenPackets(Final(c, steps'), key, vers, want, n + 1)
    decreases |key.path| - j
  {
    hide Final, BetweenPackets, Underway;
    var next := steps + [Deliver(0, 0, 0, true)];
    if j + 2 == |key.path| {
      ComesBack(c, steps, key, vers, want, n, j);
      steps' := next;
    } else {
      MovesOn(c, steps, key, vers, want, n, j);
      steps' := CarryOne(c, next, key, vers, want, n, j + 1);
    }
  }

  lemma ComesBack(c: Config, steps: seq<Step>, key: TestKey, vers: seq<uint16>, want: int, n: nat, j: nat)
    requires Addressed(c) && ClosedPath(key.path) && |vers| == |key.path| && Passable(c, key.path, vers)
    requires j + 2 == |key.path| && Underway(Final(c, steps), key, vers, want, n, j)
    ensures BetweenPackets(Final(c, steps + [Deliver(0, 0, 0, true)]), key, vers, want, n + 1)
  {
    hide React, Encode, WrapInt64, Final, Uint16;
    var s, step := Final(c, steps), Deliver(0, 0, 0, true);
    var f := s.flying[0];
    var p :| OnPath(p, key) && Carries(f, p) && p.pathVer == vers && p.currentHop == j;
    Extend(c, steps, step);
    ReactTo(c, f, p, 0, 0, true);
    assert Permits(c, key.path, j + 1);
  }

  lemma MovesOn(c: Config, steps: seq<Step>, key: TestKey, vers: seq<uint16>, want: int, n: nat, j: nat)
    requires Addressed(c) && ClosedPath(key.path) && |vers| == |key.path| && Passable(c, key.path, vers)
    requires j + 2 < |key.path| && Underway(Final(c, steps), key, vers, want, n, j)
    ensures Underway(Final(c, steps + [Deliver(0, 0, 0, true)]), key, vers, want, n, j + 1)
  {
    hide React, Forward, Encode, WrapInt64, Final, Uint16, Advance;
    var s, step := Final(c, steps), Deliver(0, 0, 0, true);
    var f := s.flying[0];
    var p :| OnPath(p, key) && Carries(f, p) && p.pathVer == vers && p.currentHop == j;
    Extend(c, steps, step);
    ReactTo(c, f, p, 0, 0, true);
    ForwardOnPath(c(f.datagram.to), p, key, f.trace, false, 0, true);
    assert Permits(c, key.path, j + 1) && KnowsNext(c, key.path, vers, j + 1);
  }

  lemma {:induction false} MeasureMany(c: Config, node: uint16, path: seq<uint16>, pathVer: Option<seq<uint16>>,
                                       count: int, id: int64, n: nat) returns (steps: seq<Step>)
    requires Addressed(c) && CheckRequest(c(node), path, pathVer).None? && |path| <= 0xFFFF
    requires Passable(c, path, Versions(path, pathVer)) && n <= WantedCount(count) <= 0xFFFF
    ensures BetweenPackets(Final(c, steps), TestKey(path, id), Versions(path, pathVer), WantedCount(count), n)
  {
    hide Passable, BetweenPackets, Underway, Final;
    var key, vers, want := TestKey(path, id), Versions(path, pathVer), WantedCount(count);
    if n == 0 {
      steps := [Begin(node, path, pathVer, count, id)];
      Started(c, node, path, pathVer, count, id);
    } else {
      steps := MeasureMany(c, node, path, pathVer, count, id, n - 1);
      steps := SendOne(c, steps, key, vers, want, n - 1);
      steps := CarryOne(c, steps, key, vers, want, n - 1, 0);
    }
  }

  lemma Started(c: Config, node: uint16, path: seq<uint16>, pathVer: Option<seq<uint16>>, count: int, id: int64)
    requires CheckRequest(c(node), path, pathVer).None? && |path| <= 0xFFFF
    ensures BetweenPackets(Final(c, [Begin(node, path, pathVer, count, id)]), TestKey(path, id),
                           Versions(path, pathVer), WantedCount(count), 0)
  {
    Extend(c, [], Begin(node, path, pathVer, count, id));
    assert [] + [Begin(node, path, pathVer, count, id)] == [Begin(node, path, pathVer, count, id)];
  }

  // ---------- The exact condition ----------

  /** In some run as many results of the test are kept as Measure waits for. */
  ghost predicate CanComplete(c: Config, key: TestKey, vers: seq<uint16>, want: int)
    requires |key.path| > 0
  {
    exists steps ::
      var s := Final(c, steps);
      key in s.tests && s.tests[key].vers == vers && s.tests[key].count == want && Kept(s, key) == want
  }

  /**
   An accepted request can be completed if and only if its count fits into 16 bits, its path fits into the receive
   buffer, every site on the path knows the next, and every site that receives its packets allows its length.
   */
  lemma CompletableIff(c: Config, node: uint16, path: seq<uint16>, pathVer: Option<seq<uint16>>, count: int, id: int64)
    requires Addressed(c) && CheckRequest(c(node), path, pathVer).None? && |path| <= 0xFFFF
    ensures CanComplete(c, TestKey(path, id), Versions(path, pathVer), WantedCount(count)) <==>
              WantedCount(count) <= 0xFFFF && Passable(c, path, Versions(path, pathVer))
  {
    hide Final, Passable, Kept, Travelled;
    var key, vers, want := TestKey(path, id), Versions(path, pathVer), WantedCount(count);
    if CanComplete(c, key, vers, want) {
      var steps :| var s := Final(c, steps);
                   key in s.tests && s.tests[key].vers == vers && s.tests[key].count == want && Kept(s, key) == want;
      RunTravelled(c, steps);
      TestOf(c, Final(c, steps), key);
      Conservation(c, steps, key);
      RecordedKept(c, steps, key);
      if want > 0xFFFF {
        LargeCountsNeverComplete(c, steps, key);
      }
    }
    if want <= 0xFFFF && Passable(c, path, vers) {
      var steps := MeasureMany(c, node, path, pathVer, count, id, want);
      var s := Final(c, steps);
      assert key in s.tests && s.tests[key].vers == vers && s.tests[key].count == want && Kept(s, key) == want;
    }
  }

  lemma TestOf(c: Config, s: Net, key: TestKey)
    requires Travelled(c, s) && key in s.tests
    ensures TestTravelled(c, s, key)
  {
  }

  lemma RecordedKept(c: Config, steps: seq<Step>, key: TestKey)
    requires Addressed(c) && key in Final(c, steps).tests
    ensures |key.path| > 0 && Kept(Final(c, steps), key) <= |Final(c, steps).tests[key].arrivals|
  {
    RunKeeps(c, steps);
    assert TestOk(Final(c, steps), key, 0);
  }

  /**
   Between sites that know each other and allow the path's length, what is left is the exact bound on the request
   alone.
   */
  lemma CompletableIffSmall(c: Config, node: uint16, path: seq<uint16>, pathVer: Option<seq<uint16>>, count: int,
                            id: int64)
    requires Addressed(c) && CheckRequest(c(node), path, pathVer).None? && |path| <= 0xFFFF
    requires forall i: nat :: i + 1 < |path| ==> KnowsNext(c, path, Versions(path, pathVer), i)
    requires forall i: nat :: 0 < i < |path| ==> Permits(c, path, i)
    ensures CanComplete(c, TestKey(path, id), Versions(path, pathVer), WantedCount(count)) <==>
              WantedCount(count) <= 0xFFFF && |path| <= 16
  {
    CompletableIff(c, node, path, pathVer, count, id);
  }
}
