/** One pathping server: what it does with a measurement request and with a datagram. */
module PathPing {
  import opened Wrappers
  import opened Codec
  import opened MapRange

  /** The key under which the results of one measurement are kept: the path and the test number. */
  datatype TestKey = TestKey(path: seq<uint16>, id: int64)

  datatype Entry = Entry(durations: seq<int>, lastUpdated: int)

  type Results = map<TestKey, Entry>

  datatype Datagram = Datagram(to: uint16, bytes: seq<byte>)

  /** The settings of a server: its site, the flag pathping.max, and the (site, version) pairs it has an address for. */
  datatype Server = Server(id: uint16, maxHops: int, peers: set<(uint16, uint16)>)

  /** What a server does with a packet. */
  datatype Reaction =
    | Record(key: TestKey, rtt: int)
    | Relay(datagram: Datagram)
    | Discard
    | UnknownOrigin
    | IndexPanic

  datatype MeasureError = BadLength | WrongStart | WrongEnd | BadVersions | SendFailed

  /** Go's 64-bit arithmetic: two's complement truncation. */
  function WrapInt64(x: int): (r: int64)
    ensures -0x8000_0000_0000_0000 <= x < 0x8000_0000_0000_0000 ==> r == x
    ensures (x - r) % 0x1_0000_0000_0000_0000 == 0
  {
    (x + 0x8000_0000_0000_0000) % 0x1_0000_0000_0000_0000 - 0x8000_0000_0000_0000
  }

  lemma WrapCongruent(x: int, y: int, k: int)
    requires x == y + k * 0x1_0000_0000_0000_0000
    ensures WrapInt64(x) == WrapInt64(y)
  {
  }

  /** Truncating twice is truncating once. */
  lemma WrapSum(a: int, b: int)
    ensures WrapInt64(WrapInt64(a) + b) == WrapInt64(a + b)
    ensures WrapInt64(b - WrapInt64(a)) == WrapInt64(b - a)
  {
    var k := (a - WrapInt64(a)) / 0x1_0000_0000_0000_0000;
    assert a - WrapInt64(a) == k * 0x1_0000_0000_0000_0000;
    WrapCongruent(a + b, WrapInt64(a) + b, k);
    WrapCongruent(b - WrapInt64(a), b - a, k);
  }

  function KeyOf(p: Packet): TestKey
    requires |p.path| >= p.pathLength
  {
    TestKey(p.path[..p.pathLength], p.id)
  }

  /** Advance a packet by one hop; the hop counter is a 16-bit number and wraps around. */
  function Advance(p: Packet, isOrigin: bool, average: int): Packet {
    p.(currentHop := if isOrigin then 0 else Uint16(p.currentHop + 1),
       startTime := WrapInt64(p.startTime + average))
  }

  /** forwardPacket: `writable` says whether the datagram can be handed to the network. */
  function Forward(s: Server, p: Packet, isOrigin: bool, average: int, writable: bool): Reaction
    requires |p.path| >= p.pathLength && |p.pathVer| >= p.pathLength
  {
    var q := Advance(p, isOrigin, average);
    var next := Uint16(q.currentHop + 1);
    if next >= |q.path| || next >= |q.pathVer| then IndexPanic
    else if (q.path[next], q.pathVer[next]) !in s.peers || !writable then Discard
    else Relay(Datagram(q.path[next], Encode(q)))
  }

  /** The hop before the last one, in the 16-bit arithmetic of the source. */
  predicate Completed(p: Packet) {
    Uint16(p.currentHop + 1) == Uint16(p.pathLength - 1)
  }

  /** listen and processPacket: the reaction to a datagram. */
  function React(s: Server, bytes: seq<byte>, now: int, average: int, writable: bool): Reaction {
    var r := Decode(Received(bytes), s.maxHops);
    if r.Failure? then Discard
    else
      var p := r.value;
      if Completed(p) then
        if p.origin == s.id then Record(KeyOf(p), WrapInt64(now - p.startTime)) else UnknownOrigin
      else Forward(s, p, false, average, writable)
  }

  /** The datagrams whose handling indexes past the end of a path, and so panics. */
  lemma PanicIff(s: Server, bytes: seq<byte>, now: int, average: int, writable: bool)
    ensures var r := Decode(Received(bytes), s.maxHops);
            React(s, bytes, now, average, writable) == IndexPanic <==>
              r.Success? && !Completed(r.value) && Uint16(r.value.currentHop + 2) >= r.value.pathLength
  {
    hide Decode, Encode, Received, WrapInt64;
    if Decode(Received(bytes), s.maxHops).Success? {
      EncodeDecode(Received(bytes), s.maxHops);
    }
  }

  /**
   Which bytes make a server record a result, and which: those of a packet of its own that has reached the hop before
   the last, and the time since the start time they carry.
   */
  lemma RecordsIff(s: Server, bytes: seq<byte>, now: int, average: int, writable: bool)
    ensures var r := Decode(Received(bytes), s.maxHops);
            && (React(s, bytes, now, average, writable).Record? <==>
                  && r.Success? && r.value.origin == s.id
                  && (r.value.currentHop + 1 - (r.value.pathLength - 1)) % 0x1_0000 == 0)
            && (React(s, bytes, now, average, writable).Record? ==>
                  React(s, bytes, now, average, writable)
                  == Record(TestKey(r.value.path, r.value.id), WrapInt64(now - r.value.startTime)))
  {
    hide Decode, Encode, Received, WrapInt64;
    if Decode(Received(bytes), s.maxHops).Success? {
      EncodeDecode(Received(bytes), s.maxHops);
    }
  }

  /** The entry of a test after one more result. */
  function Extended(entry: Option<Entry>, rtt: int, now: int): Entry {
    Entry((if entry.None? then [] else entry.value.durations) + [rtt], now)
  }

  function AddResult(results: Results, key: TestKey, rtt: int, now: int): Results {
    results[key := Extended(if key in results then Some(results[key]) else None, rtt, now)]
  }

  /** The checks Measure makes on a request. */
  function CheckRequest(s: Server, path: seq<uint16>, pathVer: Option<seq<uint16>>): Option<MeasureError> {
    if |path| < 2 || |path| > s.maxHops then Some(BadLength)
    else if path[0] != s.id then Some(WrongStart)
    else if path[0] != path[|path| - 1] then Some(WrongEnd)
    else if pathVer.Some?
            && (|pathVer.value| != |path| || exists i :: 0 <= i < |pathVer.value| && pathVer.value[i] !in {0, 4, 6})
    then Some(BadVersions)
    else None
  }

  /** Measure accepts closed paths from its own site, neither too short nor too long, with versions it knows. */
  lemma AcceptedIff(s: Server, path: seq<uint16>, pathVer: Option<seq<uint16>>)
    ensures CheckRequest(s, path, pathVer).None? <==>
              && 2 <= |path| <= s.maxHops && path[0] == s.id == path[|path| - 1]
              && (pathVer.Some? ==> |pathVer.value| == |path| && forall v :: v in pathVer.value ==> v in {0, 4, 6})
  {
    if pathVer.Some? && exists i :: 0 <= i < |pathVer.value| && pathVer.value[i] !in {0, 4, 6} {
      var i :| 0 <= i < |pathVer.value| && pathVer.value[i] !in {0, 4, 6};
      assert pathVer.value[i] in pathVer.value;
    }
  }

  /** The address versions to use, zero for every node if the caller gives none. */
  function Versions(path: seq<uint16>, pathVer: Option<seq<uint16>>): (vers: seq<uint16>)
    ensures pathVer.None? ==> |vers| == |path| && forall i :: 0 <= i < |vers| ==> vers[i] == 0
  {
    if pathVer.Some? then pathVer.value else seq(|path|, _ => 0)
  }

  /** The number of packets wanted. */
  function WantedCount(count: int): int {
    if count <= 0 then 10 else count
  }

  /** A packet as Measure creates it, before it is sent. */
  function NewPacket(s: Server, path: seq<uint16>, vers: seq<uint16>, id: int64, sequence: uint16,
                     startTime: int64): Packet
  {
    Packet(id, s.id, 0, sequence, Uint16(|path|), 0, startTime, path, vers)
  }

  class PathPingServer {
    const config: Server
    var results: Results
    var outbox: seq<Datagram>

    constructor (config: Server)
      ensures this.config == config && results == map[] && outbox == []
    {
      this.config := config;
      results := map[];
      outbox := [];
    }

    /** forwardPacket: sending appends to the outbox, from where the network takes the datagrams. */
    method ForwardPacket(p: Packet, isOrigin: bool, average: int, writable: bool) returns (reaction: Reaction)
      requires |p.path| >= p.pathLength && |p.pathVer| >= p.pathLength
      modifies `outbox
      ensures reaction == Forward(config, p, isOrigin, average, writable)
      ensures reaction.Relay? ==>
                var hop := if isOrigin then 0 else (p.currentHop + 1) % 0x1_0000;
                var next := (hop + 1) % 0x1_0000;
                && next < |p.path| && reaction.datagram.to == p.path[next]
                && reaction.datagram.bytes
                   == Encode(p.(currentHop := hop, startTime := WrapInt64(p.startTime + average)))
      ensures outbox == if reaction.Relay? then old(outbox) + [reaction.datagram] else old(outbox)
    {
      var currentHop: uint16 := if isOrigin then 0 else Uint16(p.currentHop + 1);
      var q := p.(currentHop := currentHop, startTime := WrapInt64(p.startTime + average));
      var next := Uint16(currentHop + 1);
      if next >= |q.path| || next >= |q.pathVer| {
        return IndexPanic;
      }
      if (q.path[next], q.pathVer[next]) !in config.peers {
        return Discard;
      }
      var buf := Serialize(q);
      if !writable {
        return Discard;
      }
      reaction := Relay(Datagram(q.path[next], buf[..]));
      outbox := outbox + [reaction.datagram];
    }

    /** One round of listen: read a datagram, deserialise it, process the packet. */
    method Receive(bytes: seq<byte>, now: int, average: int, writable: bool) returns (reaction: Reaction)
      modifies this
      ensures reaction == React(config, bytes, now, average, writable)
      ensures results == if reaction.Record? then AddResult(old(results), reaction.key, reaction.rtt, now)
                         else old(results)
      ensures outbox == if reaction.Relay? then old(outbox) + [reaction.datagram] else old(outbox)
    {
      hide Forward, Decode, Completed, WrapInt64, KeyOf, Advance, Encode, AddResult;
      var size := if |bytes| <= MAX_PACKET_SIZE then |bytes| else MAX_PACKET_SIZE;
      var buf := new byte[size](i requires 0 <= i < size => bytes[i]);
      assert buf[..] == Codec.Received(bytes);
      var r := DeserializePacket(buf, config.maxHops);
      if r.Failure? {
        return Discard;
      }
      EncodeDecode(buf[..], config.maxHops);
      reaction := ProcessPacket(r.value, now, average, writable);
    }

    method ProcessPacket(p: Packet, now: int, average: int, writable: bool) returns (reaction: Reaction)
      requires WellFormed(p)
      modifies this
      ensures reaction == if Completed(p) then
                            if p.origin == config.id then Record(KeyOf(p), WrapInt64(now - p.startTime))
                            else UnknownOrigin
                          else Forward(config, p, false, average, writable)
      ensures results == if reaction.Record? then AddResult(old(results), reaction.key, reaction.rtt, now)
                         else old(results)
      ensures outbox == if reaction.Relay? then old(outbox) + [reaction.datagram] else old(outbox)
    {
      if Uint16(p.currentHop + 1) == Uint16(p.pathLength - 1) {
        if p.origin != config.id {
          return UnknownOrigin;
        }
        var rtt := WrapInt64(now - p.startTime);
        assert [] + [rtt] == [rtt];
        var testID := TestKey(p.path[..p.pathLength], p.id);
        if testID !in results {
          results := results[testID := Entry([rtt], now)];
        } else {
          results := results[testID := Entry(results[testID].durations + [rtt], now)];
        }
        return Record(testID, rtt);
      }
      reaction := ForwardPacket(p, false, average, writable);
    }

    /** cleanUpResults: drop the entries that have not been updated for three timeouts. */
    method CleanUpResults(now: int, timeout: int)
      modifies `results
      ensures forall k :: k in results <==> k in old(results) && now - old(results)[k].lastUpdated <= timeout * 3
      ensures forall k :: k in results ==> results[k] == old(results)[k]
    {
      var left := results.Keys;
      var before := results;
      while left != {}
        invariant forall k :: k in left ==> k in before
        invariant forall k :: k in results <==> k in before && (k in left || now - before[k].lastUpdated <= timeout * 3)
        invariant forall k :: k in results ==> results[k] == before[k]
        decreases left
      {
        var k;
        k, left := NextKey(left);
        if now - results[k].lastUpdated > timeout * 3 {
          results := results - {k};
        }
      }
    }

    /**
     The sending half of Measure: the request is checked, then uint16(Count) packets are sent, until one cannot be.
     The clock and the average processing time are read anew for every packet.
     */
    method SendAll(path: seq<uint16>, pathVer: Option<seq<uint16>>, count: int, id: int64,
                   clock: nat -> int64, average: nat -> int, writable: nat -> bool)
      returns (error: Option<MeasureError>, sent: nat)
      modifies `outbox
      ensures CheckRequest(config, path, pathVer).Some? ==>
                error == CheckRequest(config, path, pathVer) && sent == 0 && outbox == old(outbox)
      ensures error in {None, Some(SendFailed)} <==>
                && 2 <= |path| <= config.maxHops && path[0] == config.id == path[|path| - 1]
                && (pathVer.Some? ==> |pathVer.value| == |path| && forall v :: v in pathVer.value ==> v in {0, 4, 6})
      ensures error.None? ==> sent == (if count <= 0 then 10 else count) % 0x1_0000
      ensures CheckRequest(config, path, pathVer).None? && error.Some? ==>
                error == Some(SendFailed) && sent < Uint16(WantedCount(count))
                && !Emitted(config, path, Versions(path, pathVer), id, sent, clock, average, writable).Relay?
      ensures CheckRequest(config, path, pathVer).None? ==>
                && |outbox| == |old(outbox)| + sent && outbox[..|old(outbox)|] == old(outbox)
                && forall i :: 0 <= i < sent ==>
                     Emitted(config, path, Versions(path, pathVer), id, i, clock, average, writable)
                     == Relay(outbox[|old(outbox)| + i])
    {
      hide Forward, Encode, Advance, WrapInt64;
      sent := 0;
      error := CheckRequest(config, path, pathVer);
      AcceptedIff(config, path, pathVer);
      if error.Some? {
        return;
      }
      var wanted := WantedCount(count);
      var vers := Versions(path, pathVer);
      while sent < Uint16(wanted)
        invariant 0 <= sent <= Uint16(wanted)
        invariant |outbox| == |old(outbox)| + sent && outbox[..|old(outbox)|] == old(outbox)
        invariant forall i :: 0 <= i < sent ==>
                    Emitted(config, path, vers, id, i, clock, average, writable) == Relay(outbox[|old(outbox)| + i])
      {
        var p := NewPacket(config, path, vers, id, sent, clock(sent));
        var reaction := ForwardPacket(p, true, average(sent), writable(sent));
        if !reaction.Relay? {
          return Some(SendFailed), sent;
        }
        sent := sent + 1;
      }
    }
  }

  /** What becomes of packet number `i` of a measurement when it is sent. */
  function Emitted(s: Server, path: seq<uint16>, vers: seq<uint16>, id: int64, i: nat,
                   clock: nat -> int64, average: nat -> int, writable: nat -> bool): Reaction
    requires |vers| == |path|
  {
    Forward(s, NewPacket(s, path, vers, id, Uint16(i), clock(i)), true, average(i), writable(i))
  }

  /**
   A packet that is sent goes to the second node of the path, for which the server has an address, and reads back as
   packet number `i` of the measurement, at hop 0, started at the clock plus the average processing time.
   */
  lemma EmittedContents(s: Server, path: seq<uint16>, vers: seq<uint16>, id: int64, i: nat,
                        clock: nat -> int64, average: nat -> int, writable: nat -> bool)
    requires |vers| == |path| <= 0xFFFF && i < 0x1_0000
    requires Emitted(s, path, vers, id, i, clock, average, writable).Relay?
    ensures |path| > 1 && (path[1], vers[1]) in s.peers && writable(i)
    ensures var d := Emitted(s, path, vers, id, i, clock, average, writable).datagram;
            var startTime := WrapInt64(clock(i) + average(i));
            && d.to == path[1]
            && Decode(d.bytes, 0xFFFF) == Success(Packet(id, s.id, 0, i, |path|, 0, startTime, path, vers))
  {
    hide Encode, Decode, WrapInt64;
    var q := Advance(NewPacket(s, path, vers, id, i, clock(i)), true, average(i));
    DecodeEncode(q, [], 0xFFFF);
    assert Encode(q) + [] == Encode(q);
  }
}
