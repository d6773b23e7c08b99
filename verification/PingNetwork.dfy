/**
 All pathping servers together, over every run.  The network may delay, reorder and drop datagrams, but does not
 duplicate or alter them.
 */
module PingNetwork {
  import opened Wrappers
  import opened Codec
  import opened PathPing

  /**
   The history of one packet: its number, the clock when it was created, and the sum of the average processing times of
   the servers that have sent it.
   */
  datatype Trace = Trace(sequence: uint16, clock: int64, elapsed: int)

  /**
   A datagram on its way, with the test it belongs to, the number of times its packet has been sent so far, and the
   history of its packet.
   */
  datatype Flight = Flight(datagram: Datagram, key: TestKey, transmissions: nat, trace: Trace)

  /** A packet recorded by its origin at the time `now`. */
  datatype Return = Return(trace: Trace, now: int)

  /**
   The history of one measurement: how many packets were created and lost, those recorded, and how many of these have
   since been deleted.
   */
  datatype Test = Test(vers: seq<uint16>, count: int, created: nat, lost: nat, arrivals: seq<Return>, removed: nat)

  /** `results` are those of all servers: a test is kept by the server of the first site of its path. */
  datatype Net = Net(
    flying: seq<Flight>,
    results: map<(uint16, TestKey), Entry>,
    tests: map<TestKey, Test>,
    strays: nat,
    panics: nat)

  datatype Step =
    | Begin(node: uint16, path: seq<uint16>, pathVer: Option<seq<uint16>>, count: int, id: int64)
    | Emit(key: TestKey, clock: int64, average: int, writable: bool)
    | Deliver(i: nat, now: int, average: int, writable: bool)
    | Drop(i: nat)
    | Remove(key: TestKey)

  /** The server of each site.  The address plan sends a datagram for site `n` to the server of site `n`. */
  type Config = uint16 -> Server

  ghost predicate Addressed(c: Config) {
    forall n: uint16 :: c(n).id == n
  }

  const EMPTY_NET := Net([], map[], map[], 0, 0)

  /**
   Begin: a request passes the checks of Measure; its test number is new for this path, being a time stamp.
   Emit: Measure sends its next packet.  Deliver and Drop: the network.  Remove: Measure or the clean-up deletes
   the results of a test.
   */
  ghost predicate Enabled(c: Config, s: Net, step: Step) {
    match step
    case Begin(node, path, pathVer, count, id) =>
      CheckRequest(c(node), path, pathVer).None? && |path| <= 0xFFFF && TestKey(path, id) !in s.tests
    case Emit(key, _, _, _) => key in s.tests && s.tests[key].created < Uint16(s.tests[key].count)
    case Deliver(i, _, _, _) => i < |s.flying|
    case Drop(i) => i < |s.flying|
    case Remove(key) => |key.path| > 0 && (key.path[0], key) in s.results
  }

  function Without(q: seq<Flight>, i: nat): seq<Flight>
    requires i < |q|
  {
    q[..i] + q[i + 1..]
  }

  function Lose(s: Net, key: TestKey): Net {
    if key in s.tests then s.(tests := s.tests[key := s.tests[key].(lost := s.tests[key].lost + 1)]) else s
  }

  /** The history of a packet after a server with this average processing time has sent it. */
  function Later(trace: Trace, average: int): Trace {
    trace.(elapsed := trace.elapsed + average)
  }

  /** The network after a packet of test `key` has met with `r` at site `node`, having been sent `sent` times before. */
  ghost function After(s: Net, key: TestKey, node: uint16, sent: nat, trace: Trace, r: Reaction, average: int,
                       now: int): Net
  {
    match r
    case Relay(d) => s.(flying := s.flying + [Flight(d, key, sent + 1, Later(trace, average))])
    case Discard => Lose(s, key)
    case UnknownOrigin => Lose(s, key).(strays := s.strays + 1)
    case IndexPanic => Lose(s, key).(panics := s.panics + 1)
    case Record(k, rtt) =>
      var entry := if (node, k) in s.results then Some(s.results[(node, k)]) else None;
      var kept := s.(results := s.results[(node, k) := Extended(entry, rtt, now)]);
      if k in s.tests then
        kept.(tests := s.tests[k := s.tests[k].(arrivals := s.tests[k].arrivals + [Return(trace, now)])])
      else kept
  }

  ghost function Next(c: Config, s: Net, step: Step): Net
    requires Enabled(c, s, step)
  {
    match step
    case Begin(node, path, pathVer, count, id) =>
      s.(tests := s.tests[TestKey(path, id) := Test(Versions(path, pathVer), WantedCount(count), 0, 0, [], 0)])
    case Emit(key, clock, average, writable) =>
      var t := s.tests[key];
      if |key.path| == 0 || |t.vers| < |key.path| then s
      else
        var server := c(key.path[0]);
        var p := NewPacket(server, key.path, t.vers, key.id, t.created, clock);
        var created := s.(tests := s.tests[key := t.(created := t.created + 1)]);
        After(created, key, server.id, 0, Trace(t.created, clock, 0), Forward(server, p, true, average, writable),
              average, 0)
    case Deliver(i, now, average, writable) =>
      var f := s.flying[i];
      After(s.(flying := Without(s.flying, i)), f.key, f.datagram.to, f.transmissions, f.trace,
            React(c(f.datagram.to), f.datagram.bytes, now, average, writable), average, now)
    case Drop(i) =>
      Lose(s.(flying := Without(s.flying, i)), s.flying[i].key)
    case Remove(key) =>
      var entry := (key.path[0], key);
      var gone := |s.results[entry].durations|;
      var kept := s.(results := map e | e in s.results && e != entry :: s.results[e]);
      if key in s.tests then kept.(tests := s.tests[key := s.tests[key].(removed := s.tests[key].removed + gone)])
      else kept
  }

  /** The network after `steps`; a step that is not enabled does nothing. */
  ghost function Final(c: Config, steps: seq<Step>): Net {
    if steps == [] then EMPTY_NET
    else
      var s := Final(c, steps[..|steps| - 1]);
      var step := steps[|steps| - 1];
      if Enabled(c, s, step) then Next(c, s, step) else s
  }

  // ---------- Hop safety ----------

  /** A path Measure accepts. */
  predicate ClosedPath(path: seq<uint16>) {
    2 <= |path| <= 0xFFFF && path[0] == path[|path| - 1]
  }

  /** `p` is a packet of the test `key` on its way from hop `p.currentHop` to the next. */
  predicate OnPath(p: Packet, key: TestKey) {
    && ClosedPath(key.path)
    && WellFormed(p) && p.path == key.path && p.id == key.id
    && p.origin == key.path[0] && p.status == 0
    && p.currentHop + 1 < |key.path|
  }

  /** The packet has the number of its history, and its start time has moved by the processing times. */
  predicate Stamped(p: Packet, trace: Trace) {
    p.sequence == trace.sequence && p.startTime == WrapInt64(trace.clock + trace.elapsed)
  }

  /**
   A datagram in flight carries a packet of its test with its history, is addressed to the node after the packet's
   current hop, and has been sent once per hop.
   */
  ghost predicate FlightOk(f: Flight) {
    exists p :: OnPath(p, f.key) && Carries(f, p)
  }

  ghost predicate Carries(f: Flight, p: Packet)
    requires OnPath(p, f.key)
  {
    && f.datagram == Datagram(p.path[p.currentHop + 1], Encode(p))
    && f.transmissions == p.currentHop + 1
    && Stamped(p, f.trace)
  }

  lemma CarriedIsOk(f: Flight, p: Packet)
    requires OnPath(p, f.key) && Carries(f, p)
    ensures FlightOk(f)
  {
  }

  /** Forwarding a packet of a test sends it to the next node of its path, if the server knows it, or loses it. */
  lemma ForwardOnPath(s: Server, p: Packet, key: TestKey, trace: Trace, isOrigin: bool, average: int, writable: bool)
    requires OnPath(p, key) && Stamped(p, trace)
    requires isOrigin || p.currentHop + 2 < |key.path|
    ensures var q := Advance(p, isOrigin, average);
            var hop := if isOrigin then 0 else p.currentHop + 1;
            && OnPath(q, key) && q.currentHop == hop && q.pathVer == p.pathVer
            && Carries(Flight(Datagram(key.path[hop + 1], Encode(q)), key, hop + 1, Later(trace, average)), q)
    ensures var q := Advance(p, isOrigin, average);
            var next := key.path[q.currentHop + 1];
            Forward(s, p, isOrigin, average, writable)
            == if (next, p.pathVer[q.currentHop + 1]) in s.peers && writable then Relay(Datagram(next, Encode(q)))
               else Discard
  {
    hide Encode, WrapInt64;
    WrapSum(trace.clock + trace.elapsed, average);
  }

  /** The round-trip time of a packet, without the processing times. */
  function RoundTripTime(r: Return): int64 {
    WrapInt64(r.now - (r.trace.clock + r.trace.elapsed))
  }

  /** A datagram in flight is read if its path is short enough; the origin records it, another site forwards it. */
  lemma ReactTo(c: Config, f: Flight, p: Packet, now: int, average: int, writable: bool)
    requires Addressed(c) && OnPath(p, f.key) && Carries(f, p)
    ensures var server := c(f.datagram.to);
            React(server, f.datagram.bytes, now, average, writable)
            == if |p.path| > 16 || |p.path| > Uint16(server.maxHops) then Discard
               else if p.currentHop + 2 == |p.path| then Record(f.key, RoundTripTime(Return(f.trace, now)))
               else Forward(server, p, false, average, writable)
  {
    hide Decode, Encode, Received, Forward, WrapInt64;
    var server := c(f.datagram.to);
    assert server.id == f.datagram.to;
    Arrives(p, server.maxHops);
    WrapSum(f.trace.clock + f.trace.elapsed, now);
    assert p.path[..p.pathLength] == p.path;
  }

  /** What a server makes of a datagram in flight: it loses it, records it as its origin, or sends it on. */
  lemma ReactOnPath(c: Config, f: Flight, now: int, average: int, writable: bool)
    requires Addressed(c) && FlightOk(f)
    ensures f.datagram.to in f.key.path && f.transmissions < |f.key.path|
    ensures var r := React(c(f.datagram.to), f.datagram.bytes, now, average, writable);
            || r == Discard
            || (r.Relay? && f.transmissions + 1 < |f.key.path|
                && FlightOk(Flight(r.datagram, f.key, f.transmissions + 1, Later(f.trace, average))))
            || (r == Record(f.key, RoundTripTime(Return(f.trace, now))) && f.datagram.to == f.key.path[0])
  {
    hide React, Encode, Forward, WrapInt64, Advance;
    var p :| OnPath(p, f.key) && Carries(f, p);
    ReactTo(c, f, p, now, average, writable);
    if p.currentHop + 2 < |p.path| {
      ForwardOnPath(c(f.datagram.to), p, f.key, f.trace, false, average, writable);
    }
  }

  lemma Arrives(p: Packet, maxHops: int)
    requires WellFormed(p)
    ensures var r := Decode(Received(Encode(p)), maxHops);
            if p.pathLength <= 16 && p.pathLength <= Uint16(maxHops) then r == Success(p) else r.Failure?
  {
    if p.pathLength <= Uint16(maxHops) {
      ArrivesIffShort(p, maxHops);
    } else {
      var buf := Received(Encode(p));
      assert buf == Header(p) + buf[HEADER..];
      HeaderRoundTrip(p, buf[HEADER..]);
    }
  }

  // ---------- Conservation ----------

  /** How many datagrams of a test are in flight. */
  ghost function InFlight(q: seq<Flight>, key: TestKey): nat {
    if q == [] then 0 else InFlight(q[..|q| - 1], key) + if q[|q| - 1].key == key then 1 else 0
  }

  lemma {:induction false} InFlightWithout(q: seq<Flight>, i: nat, key: TestKey)
    requires i < |q|
    ensures InFlight(q, key) == InFlight(Without(q, i), key) + if q[i].key == key then 1 else 0
  {
    var n := |q| - 1;
    if i < n {
      InFlightWithout(q[..n], i, key);
      assert Without(q, i)[..n - 1] == Without(q[..n], i);
    } else {
      assert Without(q, i) == q[..n];
    }
  }

  lemma InFlightAppend(q: seq<Flight>, f: Flight, key: TestKey)
    ensures InFlight(q + [f], key) == InFlight(q, key) + if f.key == key then 1 else 0
  {
    assert (q + [f])[..|q|] == q;
  }

  /** The number of results kept for a test. */
  ghost function Kept(s: Net, key: TestKey): nat
    requires |key.path| > 0
  {
    if (key.path[0], key) in s.results then |s.results[(key.path[0], key)].durations| else 0
  }

  /**
   Every packet created is in flight, lost or recorded, except for `owed` packets that are just being handled; and
   every packet recorded is still kept or has been deleted with the results of its test.
   */
  ghost predicate TestOk(s: Net, key: TestKey, owed: nat)
    requires key in s.tests
  {
    var t := s.tests[key];
    && ClosedPath(key.path) && |t.vers| == |key.path| && t.count > 0
    && t.created == InFlight(s.flying, key) + t.lost + |t.arrivals| + owed
    && t.created <= Uint16(t.count)
    && |t.arrivals| == t.removed + Kept(s, key)
  }

  ghost predicate Clean(s: Net) {
    && s.strays == 0 && s.panics == 0
    && (forall i :: 0 <= i < |s.flying| ==> s.flying[i].key in s.tests && FlightOk(s.flying[i]))
    && (forall n: uint16, k: TestKey :: (n, k) in s.results ==> k in s.tests && |k.path| > 0 && k.path[0] == n)
  }

  ghost predicate Balanced(s: Net) {
    forall k :: k in s.tests ==> TestOk(s, k, 0)
  }

  /** As Balanced, but one packet of `key` is in nobody's hands. */
  ghost predicate OwingOne(s: Net, key: TestKey) {
    && key in s.tests
    && forall k :: k in s.tests ==> TestOk(s, k, if k == key then 1 else 0)
  }

  ghost predicate Invariant(s: Net) {
    Clean(s) && Balanced(s)
  }

  lemma LoseKeeps(s: Net, key: TestKey)
    requires Clean(s) && OwingOne(s, key)
    ensures Invariant(Lose(s, key))
  {
    hide FlightOk, InFlight;
    var s' := Lose(s, key);
    forall k | k in s'.tests
      ensures TestOk(s', k, 0)
    {
      assert TestOk(s, k, if k == key then 1 else 0);
    }
  }

  lemma RelayKeeps(s: Net, f: Flight)
    requires Clean(s) && OwingOne(s, f.key) && FlightOk(f)
    ensures Invariant(s.(flying := s.flying + [f]))
  {
    hide FlightOk, InFlight;
    var s' := s.(flying := s.flying + [f]);
    forall k | k in s'.tests
      ensures TestOk(s', k, 0)
    {
      assert TestOk(s, k, if k == f.key then 1 else 0);
      InFlightAppend(s.flying, f, k);
    }
  }

  lemma RecordKeeps(s: Net, key: TestKey, node: uint16, sent: nat, trace: Trace, rtt: int, average: int, now: int)
    requires Clean(s) && OwingOne(s, key) && |key.path| > 0 && key.path[0] == node
    ensures Invariant(After(s, key, node, sent, trace, Record(key, rtt), average, now))
  {
    hide FlightOk, InFlight;
    var s' := After(s, key, node, sent, trace, Record(key, rtt), average, now);
    forall k | k in s'.tests
      ensures TestOk(s', k, 0)
    {
      assert TestOk(s, k, if k == key then 1 else 0);
    }
  }

  lemma AfterKeeps(s: Net, key: TestKey, node: uint16, sent: nat, trace: Trace, r: Reaction, average: int, now: int)
    requires Clean(s) && OwingOne(s, key)
    requires || r == Discard
             || (r.Relay? && FlightOk(Flight(r.datagram, key, sent + 1, Later(trace, average))))
             || (r.Record? && r.key == key && |key.path| > 0 && key.path[0] == node)
    ensures Invariant(After(s, key, node, sent, trace, r, average, now))
  {
    match r
    case Relay(d) => RelayKeeps(s, Flight(d, key, sent + 1, Later(trace, average)));
    case Record(k, rtt) => RecordKeeps(s, key, node, sent, trace, rtt, average, now);
    case _ => LoseKeeps(s, key);
  }

  /** Taking a datagram out of the network leaves one packet of its test to be accounted for. */
  lemma TakeOut(s: Net, i: nat)
    requires Invariant(s) && i < |s.flying|
    ensures var s' := s.(flying := Without(s.flying, i));
            Clean(s') && OwingOne(s', s.flying[i].key)
  {
    hide FlightOk, InFlight;
    var s' := s.(flying := Without(s.flying, i));
    forall k | k in s'.tests
      ensures TestOk(s', k, if k == s.flying[i].key then 1 else 0)
    {
      assert TestOk(s, k, 0);
      InFlightWithout(s.flying, i, k);
    }
  }

  lemma BeginKeeps(c: Config, s: Net, step: Step)
    requires Invariant(s) && step.Begin? && Enabled(c, s, step)
    ensures Invariant(Next(c, s, step))
  {
    var s' := Next(c, s, step);
    var key := TestKey(step.path, step.id);
    NoneInFlight(s.flying, key);
    forall k | k in s'.tests
      ensures TestOk(s', k, 0)
    {
      assert k != key ==> TestOk(s, k, 0);
    }
  }

  lemma {:induction false} NoneInFlight(q: seq<Flight>, key: TestKey)
    requires forall i :: 0 <= i < |q| ==> q[i].key != key
    ensures InFlight(q, key) == 0
  {
    if q != [] {
      NoneInFlight(q[..|q| - 1], key);
    }
  }

  lemma EmitKeeps(c: Config, s: Net, step: Step)
    requires Addressed(c) && Invariant(s) && step.Emit? && Enabled(c, s, step)
    ensures Invariant(Next(c, s, step))
  {
    hide FlightOk, InFlight, Forward, Balanced, Clean, OwingOne, Encode, WrapInt64;
    var key, t := step.key, s.tests[step.key];
    CreateOne(s, key);
    var server := c(key.path[0]);
    var created := s.(tests := s.tests[key := t.(created := t.created + 1)]);
    var p := NewPacket(server, key.path, t.vers, key.id, t.created, step.clock);
    assert OnPath(p, key);
    var trace := Trace(t.created, step.clock, 0);
    ForwardOnPath(server, p, key, trace, true, step.average, step.writable);
    var q := Advance(p, true, step.average);
    CarriedIsOk(Flight(Datagram(key.path[1], Encode(q)), key, 1, Later(trace, step.average)), q);
    AfterKeeps(created, key, server.id, 0, trace, Forward(server, p, true, step.average, step.writable),
               step.average, 0);
  }

  lemma CreateOne(s: Net, key: TestKey)
    requires Invariant(s) && key in s.tests && s.tests[key].created < Uint16(s.tests[key].count)
    ensures var created := s.(tests := s.tests[key := s.tests[key].(created := s.tests[key].created + 1)]);
            Clean(created) && OwingOne(created, key)
    ensures ClosedPath(key.path) && |s.tests[key].vers| == |key.path|
  {
    hide FlightOk, InFlight;
    var created := s.(tests := s.tests[key := s.tests[key].(created := s.tests[key].created + 1)]);
    assert TestOk(s, key, 0);
    forall k | k in created.tests
      ensures TestOk(created, k, if k == key then 1 else 0)
    {
      assert TestOk(s, k, 0);
    }
  }

  lemma DeliverKeeps(c: Config, s: Net, step: Step)
    requires Addressed(c) && Invariant(s) && step.Deliver? && Enabled(c, s, step)
    ensures Invariant(Next(c, s, step))
  {
    var f := s.flying[step.i];
    TakeOut(s, step.i);
    ReactOnPath(c, f, step.now, step.average, step.writable);
    var r := React(c(f.datagram.to), f.datagram.bytes, step.now, step.average, step.writable);
    AfterKeeps(s.(flying := Without(s.flying, step.i)), f.key, f.datagram.to, f.transmissions, f.trace, r,
               step.average, step.now);
  }

  lemma RemoveKeeps(c: Config, s: Net, step: Step)
    requires Invariant(s) && step.Remove? && Enabled(c, s, step)
    ensures Invariant(Next(c, s, step))
  {
    hide FlightOk, InFlight;
    var s' := Next(c, s, step);
    forall k | k in s'.tests
      ensures TestOk(s', k, 0)
    {
      assert TestOk(s, k, 0);
    }
  }

  lemma StepKeeps(c: Config, s: Net, step: Step)
    requires Addressed(c) && Invariant(s) && Enabled(c, s, step)
    ensures Invariant(Next(c, s, step))
  {
    match step
    case Begin(_, _, _, _, _) => BeginKeeps(c, s, step);
    case Emit(_, _, _, _) => EmitKeeps(c, s, step);
    case Deliver(_, _, _, _) => DeliverKeeps(c, s, step);
    case Drop(i) => TakeOut(s, i); LoseKeeps(s.(flying := Without(s.flying, i)), s.flying[i].key);
    case Remove(_) => RemoveKeeps(c, s, step);
  }

  lemma {:induction false} RunKeeps(c: Config, steps: seq<Step>)
    requires Addressed(c)
    ensures Invariant(Final(c, steps))
  {
    if steps != [] {
      RunKeeps(c, steps[..|steps| - 1]);
      var s := Final(c, steps[..|steps| - 1]);
      if Enabled(c, s, steps[|steps| - 1]) {
        StepKeeps(c, s, steps[|steps| - 1]);
      }
    }
  }

  // ---------- What holds in every reachable state ----------

  /** No server ever indexes past the end of a path or sees a packet of unknown origin. */
  lemma NoPanicsOrStrays(c: Config, steps: seq<Step>)
    requires Addressed(c)
    ensures Final(c, steps).strays == 0 && Final(c, steps).panics == 0
  {
    RunKeeps(c, steps);
  }

  /**
   Hop safety: every datagram in flight is addressed to the node after its packet's current hop, having been sent at
   most PathLength-1 times.
   */
  lemma HopSafety(c: Config, steps: seq<Step>, i: nat)
    requires Addressed(c) && i < |Final(c, steps).flying|
    ensures var f := Final(c, steps).flying[i];
            FlightOk(f) && f.transmissions <= |f.key.path| - 1 && f.datagram.to == f.key.path[f.transmissions]
  {
    RunKeeps(c, steps);
    var f := Final(c, steps).flying[i];
    var p :| OnPath(p, f.key) && Carries(f, p);
  }

  /**
   Conservation: what Measure has created is in flight, lost, kept or deleted after being recorded; so no more results
   are kept than packets were asked for.
   */
  lemma Conservation(c: Config, steps: seq<Step>, key: TestKey)
    requires Addressed(c) && key in Final(c, steps).tests
    ensures |key.path| > 0
    ensures var s := Final(c, steps);
            var t := s.tests[key];
            && t.created == InFlight(s.flying, key) + t.lost + t.removed + Kept(s, key)
            && Kept(s, key) <= t.created <= Uint16(t.count) <= t.count
  {
    hide Final, InFlight, FlightOk;
    RunKeeps(c, steps);
    assert TestOk(Final(c, steps), key, 0);
  }

  /** Measure sees `Count` results exactly if every packet it asked for was created and has come back. */
  lemma CompleteMeansAllBack(c: Config, steps: seq<Step>, key: TestKey)
    requires Addressed(c) && key in Final(c, steps).tests
    ensures |key.path| > 0
    ensures var s := Final(c, steps);
            var t := s.tests[key];
            Kept(s, key) == t.count <==>
              t.created == t.count && InFlight(s.flying, key) == 0 && t.lost == 0 && t.removed == 0
  {
    Conservation(c, steps, key);
  }

  /** A count above 65535 is cut to 16 bits when sending but not when waiting: its results are never complete. */
  lemma LargeCountsNeverComplete(c: Config, steps: seq<Step>, key: TestKey)
    requires Addressed(c) && key in Final(c, steps).tests && Final(c, steps).tests[key].count > 0xFFFF
    ensures |key.path| > 0 && Kept(Final(c, steps), key) < Final(c, steps).tests[key].count
  {
    Conservation(c, steps, key);
  }
}
