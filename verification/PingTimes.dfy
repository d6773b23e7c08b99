/** What the results say: over every run, whose times and of which packets they are. */
module PingTimes {
  import opened Wrappers
  import opened Codec
  import opened PathPing
  import opened PingNetwork

  /** The round-trip times of packets that have come back, in the order in which they were recorded. */
  function Times(arrivals: seq<Return>): seq<int> {
    seq(|arrivals|, i requires 0 <= i < |arrivals| => RoundTripTime(arrivals[i]))
  }

  /** What is kept of a test: the times of the packets recorded since the last deletion. */
  ghost predicate ResultsOk(s: Net, key: TestKey)
    requires key in s.tests && |key.path| > 0
  {
    var t, entry := s.tests[key], (key.path[0], key);
    if entry in s.results then
      && t.removed < |t.arrivals|
      && s.results[entry] == Entry(Times(t.arrivals[t.removed..]), t.arrivals[|t.arrivals| - 1].now)
    else t.removed == |t.arrivals|
  }

  // ---------- Packet numbers ----------

  /** How many datagrams of the test in flight carry packet number `n`. */
  ghost function InAir(q: seq<Flight>, key: TestKey, n: int): nat {
    if q == [] then 0
    else
      var f := q[|q| - 1];
      InAir(q[..|q| - 1], key, n) + if f.key == key && f.trace.sequence == n then 1 else 0
  }

  /** How often packet number `n` has been recorded. */
  ghost function Back(arrivals: seq<Return>, n: int): nat {
    if arrivals == [] then 0
    else Back(arrivals[..|arrivals| - 1], n) + if arrivals[|arrivals| - 1].trace.sequence == n then 1 else 0
  }

  lemma {:induction false} InAirWithout(q: seq<Flight>, i: nat, key: TestKey, n: int)
    requires i < |q|
    ensures InAir(q, key, n)
         == InAir(Without(q, i), key, n) + if q[i].key == key && q[i].trace.sequence == n then 1 else 0
  {
    var last := |q| - 1;
    if i < last {
      InAirWithout(q[..last], i, key, n);
      assert Without(q, i)[..last - 1] == Without(q[..last], i);
    } else {
      assert Without(q, i) == q[..last];
    }
  }

  lemma InAirAppend(q: seq<Flight>, f: Flight, key: TestKey, n: int)
    ensures InAir(q + [f], key, n) == InAir(q, key, n) + if f.key == key && f.trace.sequence == n then 1 else 0
  {
    assert (q + [f])[..|q|] == q;
  }

  lemma {:induction false} NoneInAir(q: seq<Flight>, key: TestKey, n: int)
    requires forall i :: 0 <= i < |q| ==> q[i].key != key
    ensures InAir(q, key, n) == 0
  {
    if q != [] {
      NoneInAir(q[..|q| - 1], key, n);
    }
  }

  /** The packets created are numbered from zero; each is in flight or recorded at most once, and the owed one never. */
  ghost predicate Numbered(s: Net, key: TestKey, owed: Option<int>)
    requires key in s.tests
  {
    forall n :: InAir(s.flying, key, n) + Back(s.tests[key].arrivals, n) + (if owed == Some(n) then 1 else 0)
                <= if 0 <= n < s.tests[key].created then 1 else 0
  }

  ghost predicate TimedOk(s: Net, key: TestKey, owed: Option<int>)
    requires key in s.tests
  {
    |key.path| > 0 && ResultsOk(s, key) && Numbered(s, key, owed)
  }

  ghost predicate Timed(s: Net) {
    forall k :: k in s.tests ==> TimedOk(s, k, None)
  }

  /** As Timed, but packet number `n` of `key` is in nobody's hands. */
  ghost predicate TimedBut(s: Net, key: TestKey, n: int) {
    && key in s.tests
    && forall k :: k in s.tests ==> TimedOk(s, k, if k == key then Some(n) else None)
  }

  lemma LoseTimed(s: Net, key: TestKey, n: int)
    requires TimedBut(s, key, n)
    ensures Timed(Lose(s, key))
  {
    hide InAir, Back, Times;
    var s' := Lose(s, key);
    forall k | k in s'.tests
      ensures TimedOk(s', k, None)
    {
      assert TimedOk(s, k, if k == key then Some(n) else None);
      FewerOwed(s, s', k, if k == key then Some(n) else None);
    }
  }

  lemma FewerOwed(s: Net, s': Net, key: TestKey, owed: Option<int>)
    requires key in s.tests && key in s'.tests && Numbered(s, key, owed) && s'.flying == s.flying
    requires s'.tests[key].arrivals == s.tests[key].arrivals && s'.tests[key].created == s.tests[key].created
    ensures Numbered(s', key, None)
  {
    forall n
      ensures InAir(s'.flying, key, n) + Back(s'.tests[key].arrivals, n) <=
              if 0 <= n < s'.tests[key].created then 1 else 0
    {
      assert InAir(s.flying, key, n) + Back(s.tests[key].arrivals, n) <=
             if 0 <= n < s.tests[key].created then 1 else 0;
    }
  }

  lemma RelayTimed(s: Net, f: Flight)
    requires TimedBut(s, f.key, f.trace.sequence)
    ensures Timed(s.(flying := s.flying + [f]))
  {
    hide InAir, Back, Times;
    var s' := s.(flying := s.flying + [f]);
    forall k | k in s'.tests
      ensures TimedOk(s', k, None)
    {
      var owed := if k == f.key then Some(f.trace.sequence as int) else None;
      assert TimedOk(s, k, owed);
      forall n
        ensures InAir(s'.flying, k, n) + Back(s.tests[k].arrivals, n) <= if 0 <= n < s.tests[k].created then 1 else 0
      {
        InAirAppend(s.flying, f, k, n);
        assert InAir(s.flying, k, n) + Back(s.tests[k].arrivals, n) + (if owed == Some(n) then 1 else 0)
               <= if 0 <= n < s.tests[k].created then 1 else 0;
      }
    }
  }

  lemma RecordTimed(s: Net, key: TestKey, node: uint16, sent: nat, trace: Trace, average: int, now: int)
    requires TimedBut(s, key, trace.sequence) && |key.path| > 0 && key.path[0] == node
    ensures Timed(After(s, key, node, sent, trace, Record(key, RoundTripTime(Return(trace, now))), average, now))
  {
    hide InAir, Back, Times, RoundTripTime;
    var back := Return(trace, now);
    var s' := After(s, key, node, sent, trace, Record(key, RoundTripTime(back)), average, now);
    forall k | k in s'.tests
      ensures TimedOk(s', k, None)
    {
      var owed := if k == key then Some(trace.sequence as int) else None;
      assert TimedOk(s, k, owed);
      if k == key {
        ResultAdded(s, s', key, back);
        forall n
          ensures InAir(s'.flying, k, n) + Back(s'.tests[k].arrivals, n) <= if 0 <= n < s.tests[k].created then 1 else 0
        {
          BackAppend(s.tests[k].arrivals, back, n);
          assert InAir(s.flying, k, n) + Back(s.tests[k].arrivals, n) + (if owed == Some(n) then 1 else 0)
                 <= if 0 <= n < s.tests[k].created then 1 else 0;
        }
      } else {
        FewerOwed(s, s', k, owed);
      }
    }
  }

  lemma BackAppend(arrivals: seq<Return>, back: Return, n: int)
    ensures Back(arrivals + [back], n) == Back(arrivals, n) + if back.trace.sequence == n then 1 else 0
  {
    assert (arrivals + [back])[..|arrivals|] == arrivals;
  }

  lemma ResultAdded(s: Net, s': Net, key: TestKey, back: Return)
    requires key in s.tests && |key.path| > 0 && ResultsOk(s, key)
    requires var entry := (key.path[0], key);
             s'.results == s.results[entry := Extended(if entry in s.results then Some(s.results[entry]) else None,
                                                       RoundTripTime(back), back.now)]
    requires key in s'.tests && s'.tests[key] == s.tests[key].(arrivals := s.tests[key].arrivals + [back])
    ensures ResultsOk(s', key)
  {
    hide RoundTripTime;
    var t := s.tests[key];
    var all := t.arrivals + [back];
    assert all[t.removed..] == t.arrivals[t.removed..] + [back];
    assert Times(all[t.removed..]) == Times(t.arrivals[t.removed..]) + [RoundTripTime(back)];
  }

  lemma AfterTimed(s: Net, key: TestKey, node: uint16, sent: nat, trace: Trace, r: Reaction, average: int, now: int)
    requires TimedBut(s, key, trace.sequence)
    requires r.Record? ==> r == Record(key, RoundTripTime(Return(trace, now))) && |key.path| > 0 && key.path[0] == node
    ensures Timed(After(s, key, node, sent, trace, r, average, now))
  {
    hide TimedOk, RoundTripTime;
    match r
    case Relay(d) => RelayTimed(s, Flight(d, key, sent + 1, Later(trace, average)));
    case Record(k, rtt) => RecordTimed(s, key, node, sent, trace, average, now);
    case _ =>
      LoseTimed(s, key, trace.sequence);
      SameTimed(Lose(s, key), After(s, key, node, sent, trace, r, average, now));
  }

  lemma SameTimed(s: Net, s': Net)
    requires Timed(s) && s'.flying == s.flying && s'.results == s.results && s'.tests == s.tests
    ensures Timed(s')
  {
    hide InAir, Back, Times;
    forall k | k in s'.tests
      ensures TimedOk(s', k, None)
    {
      assert TimedOk(s, k, None);
      FewerOwed(s, s', k, None);
    }
  }

  /** Taking a datagram out of the network leaves its packet to be accounted for. */
  lemma TakeOutTimed(s: Net, i: nat)
    requires Timed(s) && i < |s.flying| && s.flying[i].key in s.tests
    ensures TimedBut(s.(flying := Without(s.flying, i)), s.flying[i].key, s.flying[i].trace.sequence)
  {
    hide InAir, Back, Times;
    var s', f := s.(flying := Without(s.flying, i)), s.flying[i];
    forall k | k in s'.tests
      ensures TimedOk(s', k, if k == f.key then Some(f.trace.sequence) else None)
    {
      assert TimedOk(s, k, None);
      forall n
        ensures InAir(s'.flying, k, n) + Back(s.tests[k].arrivals, n)
                + (if k == f.key && f.trace.sequence == n then 1 else 0)
                <= if 0 <= n < s.tests[k].created then 1 else 0
      {
        InAirWithout(s.flying, i, k, n);
        assert InAir(s.flying, k, n) + Back(s.tests[k].arrivals, n) <= if 0 <= n < s.tests[k].created then 1 else 0;
      }
    }
  }

  lemma CreateTimed(s: Net, key: TestKey)
    requires Timed(s) && key in s.tests
    ensures TimedBut(s.(tests := s.tests[key := s.tests[key].(created := s.tests[key].created + 1)]), key,
                     s.tests[key].created)
  {
    hide InAir, Back, Times;
    var t := s.tests[key];
    var s' := s.(tests := s.tests[key := t.(created := t.created + 1)]);
    forall k | k in s'.tests
      ensures TimedOk(s', k, if k == key then Some(t.created) else None)
    {
      assert TimedOk(s, k, None);
      if k == key {
        forall n
          ensures InAir(s'.flying, k, n) + Back(t.arrivals, n) + (if n == t.created then 1 else 0)
                  <= if 0 <= n < t.created + 1 then 1 else 0
        {
          assert InAir(s.flying, k, n) + Back(t.arrivals, n) <= if 0 <= n < t.created then 1 else 0;
        }
      } else {
        FewerOwed(s, s', k, None);
      }
    }
  }

  lemma BeginTimed(c: Config, s: Net, step: Step)
    requires Clean(s) && Timed(s) && step.Begin? && Enabled(c, s, step)
    ensures Timed(Next(c, s, step))
  {
    hide InAir, Times, FlightOk;
    var s', key := Next(c, s, step), TestKey(step.path, step.id);
    forall k | k in s'.tests
      ensures TimedOk(s', k, None)
    {
      if k == key {
        forall n
          ensures InAir(s'.flying, k, n) == 0
        {
          NoneInAir(s.flying, key, n);
        }
      } else {
        assert TimedOk(s, k, None);
        FewerOwed(s, s', k, None);
      }
    }
  }

  lemma EmitTimed(c: Config, s: Net, step: Step)
    requires Addressed(c) && Invariant(s) && Timed(s) && step.Emit? && Enabled(c, s, step)
    ensures Timed(Next(c, s, step))
  {
    hide Forward, Timed, TimedOk, Balanced, Clean, OwingOne, Encode, WrapInt64, CheckRequest;
    var key, t := step.key, s.tests[step.key];
    CreateOne(s, key);
    CreateTimed(s, key);
    var server := c(key.path[0]);
    var created := s.(tests := s.tests[key := t.(created := t.created + 1)]);
    var p := NewPacket(server, key.path, t.vers, key.id, t.created, step.clock);
    var trace := Trace(t.created, step.clock, 0);
    ForwardOnPath(server, p, key, trace, true, step.average, step.writable);
    var r := Forward(server, p, true, step.average, step.writable);
    assert Next(c, s, step) == After(created, key, server.id, 0, trace, r, step.average, 0);
    AfterTimed(created, key, server.id, 0, trace, r, step.average, 0);
  }

  lemma DeliverTimed(c: Config, s: Net, step: Step)
    requires Addressed(c) && Invariant(s) && Timed(s) && step.Deliver? && Enabled(c, s, step)
    ensures Timed(Next(c, s, step))
  {
    hide Timed, TimedOk, Balanced, React, RoundTripTime;
    var f := s.flying[step.i];
    TakeOutTimed(s, step.i);
    ReactOnPath(c, f, step.now, step.average, step.writable);
    PathNotEmpty(s, f.key);
    var r := React(c(f.datagram.to), f.datagram.bytes, step.now, step.average, step.writable);
    AfterTimed(s.(flying := Without(s.flying, step.i)), f.key, f.datagram.to, f.transmissions, f.trace, r,
               step.average, step.now);
  }

  lemma PathNotEmpty(s: Net, key: TestKey)
    requires Timed(s) && key in s.tests
    ensures |key.path| > 0
  {
    hide ResultsOk, Numbered;
    assert TimedOk(s, key, None);
  }

  lemma DropTimed(s: Net, i: nat)
    requires Clean(s) && Timed(s) && i < |s.flying|
    ensures Timed(Lose(s.(flying := Without(s.flying, i)), s.flying[i].key))
  {
    hide Timed, TimedOk, FlightOk;
    TakeOutTimed(s, i);
    LoseTimed(s.(flying := Without(s.flying, i)), s.flying[i].key, s.flying[i].trace.sequence);
  }

  lemma RemoveTimed(c: Config, s: Net, step: Step)
    requires Clean(s) && Timed(s) && step.Remove? && Enabled(c, s, step)
    ensures Timed(Next(c, s, step))
  {
    hide InAir, Back, FlightOk, RoundTripTime;
    var s' := Next(c, s, step);
    forall k | k in s'.tests
      ensures TimedOk(s', k, None)
    {
      assert TimedOk(s, k, None);
      FewerOwed(s, s', k, None);
    }
  }

  lemma StepTimed(c: Config, s: Net, step: Step)
    requires Addressed(c) && Invariant(s) && Timed(s) && Enabled(c, s, step)
    ensures Timed(Next(c, s, step))
  {
    hide Timed, Clean, Balanced;
    match step
    case Begin(_, _, _, _, _) => BeginTimed(c, s, step);
    case Emit(_, _, _, _) => EmitTimed(c, s, step);
    case Deliver(_, _, _, _) => DeliverTimed(c, s, step);
    case Drop(i) => DropTimed(s, i);
    case Remove(_) => RemoveTimed(c, s, step);
  }

  lemma {:induction false} RunTimed(c: Config, steps: seq<Step>)
    requires Addressed(c)
    ensures Timed(Final(c, steps))
  {
    hide TimedOk, Invariant;
    if steps != [] {
      var init, step := steps[..|steps| - 1], steps[|steps| - 1];
      RunTimed(c, init);
      RunKeeps(c, init);
      if Enabled(c, Final(c, init), step) {
        StepTimed(c, Final(c, init), step);
      }
    }
  }

  // ---------- What holds in every reachable state ----------

  /**
   Reading a datagram in flight gives the packet of its test with its number and the path of the test, and a start time
   that is the clock of its creation plus the average processing times of the servers that have sent it since.
   */
  lemma FlightContents(c: Config, steps: seq<Step>, i: nat)
    requires Addressed(c) && i < |Final(c, steps).flying|
    ensures var f := Final(c, steps).flying[i];
            var r := Decode(f.datagram.bytes, 0xFFFF);
            && r.Success? && |f.key.path| > 0 && f.transmissions > 0
            && r.value.id == f.key.id && r.value.path == f.key.path && r.value.origin == f.key.path[0]
            && r.value.currentHop == f.transmissions - 1 && r.value.sequence == f.trace.sequence
            && (r.value.startTime - (f.trace.clock + f.trace.elapsed)) % 0x1_0000_0000_0000_0000 == 0
            && (-0x8000_0000_0000_0000 <= f.trace.clock + f.trace.elapsed < 0x8000_0000_0000_0000 ==>
                  r.value.startTime == f.trace.clock + f.trace.elapsed)
  {
    hide Final, Decode, Encode, Balanced;
    RunKeeps(c, steps);
    var f := Final(c, steps).flying[i];
    var p :| OnPath(p, f.key) && Carries(f, p);
    DecodeEncode(p, [], 0xFFFF);
    assert Encode(p) + [] == Encode(p);
  }

  /**
   The durations kept for a test are those of the packets recorded since the last deletion, in that order: the time of
   the recording less the clock of the creation and the average processing times.
   */
  lemma KeptDurations(c: Config, steps: seq<Step>, key: TestKey)
    requires Addressed(c) && key in Final(c, steps).tests && |key.path| > 0
    requires (key.path[0], key) in Final(c, steps).results
    ensures var t, kept := Final(c, steps).tests[key], Final(c, steps).results[(key.path[0], key)];
            && |kept.durations| == |t.arrivals| - t.removed > 0
            && kept.lastUpdated == t.arrivals[|t.arrivals| - 1].now
            && forall i :: 0 <= i < |kept.durations| ==> IsDuration(kept.durations[i], t.arrivals[t.removed + i])
  {
    hide Final;
    RunTimed(c, steps);
    var s := Final(c, steps);
    assert TimedOk(s, key, None);
    var t, kept := s.tests[key], s.results[(key.path[0], key)];
    forall i | 0 <= i < |kept.durations|
      ensures IsDuration(kept.durations[i], t.arrivals[t.removed + i])
    {
      assert kept.durations[i] == RoundTripTime(t.arrivals[t.removed..][i]);
    }
  }

  /** The duration is the time from creation to recording without the processing times, if that fits into 64 bits. */
  predicate IsDuration(d: int, back: Return) {
    var time := back.now - back.trace.clock - back.trace.elapsed;
    && (d - time) % 0x1_0000_0000_0000_0000 == 0
    && (-0x8000_0000_0000_0000 <= time < 0x8000_0000_0000_0000 ==> d == time)
  }

  /** No packet is recorded twice, and those recorded have numbers below the number of packets created. */
  lemma RecordedOnce(c: Config, steps: seq<Step>, key: TestKey, i: nat, j: nat)
    requires Addressed(c) && key in Final(c, steps).tests && i < |Final(c, steps).tests[key].arrivals|
    ensures var t := Final(c, steps).tests[key];
            && t.arrivals[i].trace.sequence < t.created
            && (i < j < |t.arrivals| ==> t.arrivals[i].trace.sequence != t.arrivals[j].trace.sequence)
  {
    hide Final, InAir, ResultsOk;
    RunTimed(c, steps);
    var s := Final(c, steps);
    assert TimedOk(s, key, None);
    var arrivals := s.tests[key].arrivals;
    var n: int := arrivals[i].trace.sequence;
    assert InAir(s.flying, key, n) + Back(arrivals, n) <= if 0 <= n < s.tests[key].created then 1 else 0;
    BackAt(arrivals, i, n);
    if i < j < |arrivals| && arrivals[j].trace.sequence == n {
      BackTwice(arrivals, i, j, n);
    }
  }

  lemma {:induction false} BackAt(arrivals: seq<Return>, i: nat, n: int)
    requires i < |arrivals| && arrivals[i].trace.sequence == n
    ensures Back(arrivals, n) > 0
  {
    if i < |arrivals| - 1 {
      BackAt(arrivals[..|arrivals| - 1], i, n);
    }
  }

  lemma {:induction false} BackTwice(arrivals: seq<Return>, i: nat, j: nat, n: int)
    requires i < j < |arrivals| && arrivals[i].trace.sequence == n == arrivals[j].trace.sequence
    ensures Back(arrivals, n) > 1
  {
    if j < |arrivals| - 1 {
      BackTwice(arrivals[..|arrivals| - 1], i, j, n);
    } else {
      BackAt(arrivals[..|arrivals| - 1], i, n);
    }
  }
}
