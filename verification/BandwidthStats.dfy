/** The packet statistics of the bandwidth server's client worker. */
module BandwidthStats {
  import opened Wrappers

  type uint32 = x: int | 0 <= x < 0x1_0000_0000

  function Uint32(x: int): uint32 {
    x % 0x1_0000_0000
  }

  /** One packet: its sequence number, and the jitter measured when it was processed, in microseconds. */
  datatype Arrival = Arrival(sequence: uint32, jitter: nat)

  datatype Stats = Stats(
    total: uint32,
    outOfOrder: uint32,
    dropped: uint32,
    highest: uint32,
    averageJitter: int,
    jitterVariance: real,
    maxJitter: int)

  const ZERO_STATS := Stats(0, 0, 0, 0, 0, 0.0, 0)

  /** Go's integer division, which truncates towards zero. */
  function Quotient(a: int, b: int): int
    requires b > 0
  {
    if a >= 0 then a / b else -((-a) / b)
  }

  /** What is left over has the sign of the dividend and is smaller than the divisor. */
  lemma QuotientTruncates(a: int, b: int)
    requires b > 0
    ensures a >= 0 ==> 0 <= b * Quotient(a, b) <= a < b * Quotient(a, b) + b
    ensures a <= 0 ==> b * Quotient(a, b) - b < a <= b * Quotient(a, b) <= 0
  {
    if a >= 0 {
      assert a / b >= 0;
    } else {
      assert (-a) / b >= 0;
      assert b * Quotient(a, b) == -(b * ((-a) / b));
    }
  }

  /** The average moves towards the jitter by an `n`th of the distance, up to a remainder smaller than `n`. */
  ghost predicate MovesTowards(before: int, jitter: int, n: int, after: int) {
    var distance, moved := jitter - before, n * (after - before);
    && (distance >= 0 ==> 0 <= moved <= distance < moved + n)
    && (distance <= 0 ==> moved - n < distance <= moved <= 0)
  }

  lemma AverageMoves(before: int, jitter: int, n: int)
    requires n > 0
    ensures MovesTowards(before, jitter, n, before + Quotient(jitter - before, n))
  {
    QuotientTruncates(jitter - before, n);
  }

  /** What a packet adds to the jitter variance: its distance from the old average times that from the new one. */
  function Spread(jitter: int, before: int, after: int): real {
    (jitter - before) as real * (jitter - after) as real
  }

  /** The variance grows by the product of the distances to the average before and after. */
  ghost predicate AddsSpread(variance: real, before: int, jitter: int, after: int, variance': real) {
    variance' == variance + (jitter - before) as real * (jitter - after) as real
  }

  lemma SpreadAdded(variance: real, before: int, jitter: int, after: int)
    ensures AddsSpread(variance, before, jitter, after, variance + Spread(jitter, before, after))
  {
  }

  /**
   The new statistics after a packet.  `window` is the flag for how far back a packet still counts as out of order.
   There are none if the packet counter wraps around to zero: the source then divides by it.
   */
  function Update(s: Stats, a: Arrival, window: uint32): Option<Stats> {
    if s.total == 0 then
      Some(s.(total := 1, averageJitter := 0, jitterVariance := 0.0, highest := a.sequence))
    else
      var late := a.sequence <= s.highest;
      var near := late && s.highest - a.sequence < window;
      var total := Uint32(s.total + 1);
      if total == 0 then None
      else
        var average := s.averageJitter + Quotient(a.jitter - s.averageJitter, total);
        Some(Stats(
               total,
               if near then Uint32(s.outOfOrder + 1) else s.outOfOrder,
               if late && !near then Uint32(s.dropped + 1) else s.dropped,
               if late then s.highest else a.sequence,
               average,
               s.jitterVariance + Spread(a.jitter, s.averageJitter, average),
               if a.jitter > s.maxJitter then a.jitter else s.maxJitter))
  }

  class ClientStats {
    var totalPackets: uint32
    var outOfOrderPackets: uint32
    var droppedPackets: uint32
    var highestSeq: uint32
    var averageJitter: int
    var jitterVariance: real
    var maxJitter: int

    constructor ()
      ensures Value() == ZERO_STATS
    {
      totalPackets, outOfOrderPackets, droppedPackets, highestSeq := 0, 0, 0, 0;
      averageJitter, jitterVariance, maxJitter := 0, 0.0, 0;
    }

    ghost function Value(): Stats
      reads this
    {
      Stats(totalPackets, outOfOrderPackets, droppedPackets, highestSeq, averageJitter, jitterVariance, maxJitter)
    }

    /** The packet branch of clientWorker; `ok` is false if the source would divide by zero. */
    method Process(a: Arrival, window: uint32) returns (ok: bool)
      modifies this
      ensures ok <==> Update(old(Value()), a, window).Some?
      ensures ok ==> Some(Value()) == Update(old(Value()), a, window)
      ensures ok && old(totalPackets) > 0 ==>
                MovesTowards(old(averageJitter), a.jitter, totalPackets, averageJitter)
      ensures ok && old(totalPackets) > 0 ==>
                AddsSpread(old(jitterVariance), old(averageJitter), a.jitter, averageJitter, jitterVariance)
    {
      hide Spread, Quotient, MovesTowards, AddsSpread;
      if totalPackets > 0 {
        if a.sequence > highestSeq {
          highestSeq := a.sequence;
        } else if highestSeq - a.sequence < window {
          outOfOrderPackets := Uint32(outOfOrderPackets + 1);
        } else {
          droppedPackets := Uint32(droppedPackets + 1);
        }
        var oldM := averageJitter;
        totalPackets := Uint32(totalPackets + 1);
        if totalPackets == 0 {
          return false;
        }
        averageJitter := averageJitter + Quotient(a.jitter - oldM, totalPackets);
        AverageMoves(oldM, a.jitter, totalPackets);
        SpreadAdded(jitterVariance, oldM, a.jitter, averageJitter);
        jitterVariance := jitterVariance + Spread(a.jitter, oldM, averageJitter);
        if a.jitter > maxJitter {
          maxJitter := a.jitter;
        }
      } else {
        totalPackets := 1;
        averageJitter := 0;
        jitterVariance := 0.0;
        highestSeq := a.sequence;
      }
      ok := true;
    }
  }

  // ---------- Over every packet sequence ----------

  ghost function Run(packets: seq<Arrival>, window: uint32): Option<Stats> {
    if packets == [] then Some(ZERO_STATS)
    else
      var s := Run(packets[..|packets| - 1], window);
      if s.None? then None else Update(s.value, packets[|packets| - 1], window)
  }

  /** The number of packets with a sequence number above all before them. */
  ghost function Records(packets: seq<Arrival>): nat {
    if packets == [] then 0
    else
      var n := |packets| - 1;
      Records(packets[..n]) + if IsRecord(packets, n) then 1 else 0
  }

  ghost predicate IsRecord(packets: seq<Arrival>, n: nat)
    requires n < |packets|
  {
    forall i :: 0 <= i < n ==> packets[i].sequence < packets[n].sequence
  }

  /** The packet comes after one with a sequence number at least as high, but none that is `window` or more ahead. */
  ghost predicate JustBehind(packets: seq<Arrival>, n: nat, window: uint32)
    requires n < |packets|
  {
    && (exists i :: 0 <= i < n && packets[n].sequence <= packets[i].sequence)
    && forall i :: 0 <= i < n ==> packets[i].sequence - packets[n].sequence < window
  }

  /** The number of packets that were just behind. */
  ghost function Reordered(packets: seq<Arrival>, window: uint32): nat {
    if packets == [] then 0
    else
      var n := |packets| - 1;
      Reordered(packets[..n], window) + if JustBehind(packets, n, window) then 1 else 0
  }

  ghost predicate IsHighest(packets: seq<Arrival>, h: int) {
    && (packets != [] ==> exists i :: 0 <= i < |packets| && packets[i].sequence == h)
    && forall i :: 0 <= i < |packets| ==> packets[i].sequence <= h
  }

  /** The highest jitter after the first packet, whose jitter the source does not measure; zero if there is none. */
  ghost predicate IsMaxJitter(packets: seq<Arrival>, m: int) {
    && m >= 0
    && (forall i :: 0 < i < |packets| ==> packets[i].jitter <= m)
    && (m > 0 ==> exists i :: 0 < i < |packets| && packets[i].jitter == m)
  }

  ghost predicate Sound(packets: seq<Arrival>, s: Stats, window: uint32) {
    && s.total == |packets|
    && IsHighest(packets, s.highest)
    && s.outOfOrder == Reordered(packets, window)
    && s.outOfOrder + s.dropped == |packets| - Records(packets)
    && IsMaxJitter(packets, s.maxJitter)
    && 0 <= s.averageJitter <= s.maxJitter
    && 0.0 <= s.jitterVariance
  }

  /** The new average lies between the old one and the new jitter, so the variance term is not negative. */
  lemma JitterStep(before: int, jitter: int, n: int)
    requires n > 0
    ensures var q := Quotient(jitter - before, n);
            && (jitter >= before ==> 0 <= q <= jitter - before)
            && (jitter <= before ==> jitter - before <= q <= 0)
            && 0.0 <= Spread(jitter, before, before + q)
  {
    var d := jitter - before;
    var q := Quotient(d, n);
    DivisionShrinks(if d >= 0 then d else -d, n);
    ProductSign(d as real, (d - q) as real);
    assert jitter - (before + q) == d - q;
  }

  lemma DivisionShrinks(a: nat, n: int)
    requires n > 0
    ensures 0 <= a / n <= a
  {
    var q := a / n;
    assert a == n * q + a % n;
    ScaleUp(q, n);
  }

  lemma ScaleUp(q: nat, n: int)
    requires n > 0
    ensures q <= n * q
  {
    assert (n - 1) * q >= 0;
  }

  lemma ProductSign(x: real, y: real)
    ensures (x >= 0.0 && y >= 0.0) || (x <= 0.0 && y <= 0.0) ==> x * y >= 0.0
  {
  }

  lemma UpdateKeeps(packets: seq<Arrival>, s: Stats, a: Arrival, window: uint32)
    requires Sound(packets, s, window) && Update(s, a, window).Some?
    ensures Sound(packets + [a], Update(s, a, window).value, window)
    ensures packets != [] ==> s.jitterVariance <= Update(s, a, window).value.jitterVariance
  {
    hide Spread, Quotient, IsHighest, IsMaxJitter, Records, Reordered;
    MaxJitterStep(packets, s.maxJitter, a);
    RecordStep(packets, s.highest, a);
    HighestStep(packets, s.highest, a);
    ReorderedStep(packets, s.highest, a, window);
    RecordsBound(packets);
    if packets != [] {
      JitterStep(s.averageJitter, a.jitter, Uint32(s.total + 1));
    }
  }

  lemma RecordStep(packets: seq<Arrival>, highest: int, a: Arrival)
    requires IsHighest(packets, highest)
    ensures Records(packets + [a]) == Records(packets) + if packets == [] || highest < a.sequence then 1 else 0
  {
    var all, n := packets + [a], |packets|;
    assert all[..n] == packets && all[n] == a;
    assert forall i :: 0 <= i < n ==> all[i].sequence == packets[i].sequence <= highest;
    if n > 0 {
      var i :| 0 <= i < n && packets[i].sequence == highest;
      assert all[i] == packets[i];
    }
  }

  lemma {:induction false} RecordsBound(packets: seq<Arrival>)
    ensures Records(packets) <= |packets|
    ensures packets != [] ==> Records(packets) > 0
  {
    if packets != [] {
      RecordsBound(packets[..|packets| - 1]);
    }
  }

  lemma ReorderedStep(packets: seq<Arrival>, highest: int, a: Arrival, window: uint32)
    requires IsHighest(packets, highest)
    ensures Reordered(packets + [a], window) ==
            Reordered(packets, window) + if packets != [] && a.sequence <= highest < a.sequence + window then 1 else 0
  {
    var all, n := packets + [a], |packets|;
    assert all[..n] == packets && all[n] == a;
    assert forall i :: 0 <= i < n ==> all[i].sequence == packets[i].sequence <= highest;
    if n > 0 {
      var i :| 0 <= i < n && packets[i].sequence == highest;
      assert all[i] == packets[i];
    }
  }

  lemma HighestStep(packets: seq<Arrival>, highest: int, a: Arrival)
    requires IsHighest(packets, highest)
    ensures IsHighest(packets + [a], if packets == [] || highest < a.sequence then a.sequence else highest)
  {
    var all, n := packets + [a], |packets|;
    assert all[n] == a;
    if n > 0 {
      var i :| 0 <= i < n && packets[i].sequence == highest;
      assert all[i] == packets[i];
    }
  }

  lemma MaxJitterStep(packets: seq<Arrival>, m: int, a: Arrival)
    requires IsMaxJitter(packets, m)
    ensures m >= 0
    ensures IsMaxJitter(packets + [a], if packets != [] && a.jitter > m then a.jitter else m)
  {
    var all, n := packets + [a], |packets|;
    assert all[n] == a;
    if m > 0 {
      var i :| 0 < i < n && packets[i].jitter == m;
      assert all[i] == packets[i];
    }
  }

  /**
   Over every sequence of fewer than 2^32 packets the statistics exist and are sound: the highest sequence number is
   the maximum seen, out of order are the packets just behind an earlier one and dropped the others that were no
   record, the highest jitter is the maximum over all packets but the first, the average lies between 0 and it, and the
   variance is not negative.  The next packet makes the counter wrap around, and from then on there is only the division
   by zero.
   */
  lemma {:induction false} StatsAreSound(packets: seq<Arrival>, window: uint32)
    ensures |packets| < 0x1_0000_0000 <==> Run(packets, window).Some?
    ensures |packets| < 0x1_0000_0000 ==> Sound(packets, Run(packets, window).value, window)
  {
    hide Spread, Quotient;
    if packets != [] {
      hide IsHighest, IsMaxJitter, Records, Reordered;
      var init, last := packets[..|packets| - 1], packets[|packets| - 1];
      StatsAreSound(init, window);
      assert init + [last] == packets;
      if |packets| < 0x1_0000_0000 {
        UpdateKeeps(init, Run(init, window).value, last, window);
      }
    }
  }

  /** The variance never falls as packets come in. */
  lemma {:induction false} VarianceGrows(packets: seq<Arrival>, k: nat, window: uint32)
    requires k <= |packets| < 0x1_0000_0000
    ensures Run(packets[..k], window).Some? && Run(packets, window).Some?
    ensures Run(packets[..k], window).value.jitterVariance <= Run(packets, window).value.jitterVariance
    decreases |packets|
  {
    hide Spread, Quotient, IsHighest, IsMaxJitter, Records, Reordered;
    StatsAreSound(packets, window);
    if k == |packets| {
      assert packets[..k] == packets;
    } else {
      var init, last := packets[..|packets| - 1], packets[|packets| - 1];
      assert init[..k] == packets[..k];
      VarianceGrows(init, k, window);
      StatsAreSound(init, window);
      UpdateKeeps(init, Run(init, window).value, last, window);
      assert init + [last] == packets;
    }
  }

  // ---------- The average and the variance ----------

  ghost function Average(packets: seq<Arrival>, window: uint32): int {
    var s := Run(packets, window);
    if s.None? then 0 else s.value.averageJitter
  }

  /** The first packet leaves the average at zero, packet number `n` moves it by an `n`th of its distance. */
  lemma AverageStep(packets: seq<Arrival>, window: uint32)
    requires 0 < |packets| < 0x1_0000_0000
    ensures |packets| == 1 ==> Average(packets, window) == 0
    ensures var n := |packets|;
            n > 1 ==>
              MovesTowards(Average(packets[..n - 1], window), packets[n - 1].jitter, n, Average(packets, window))
  {
    hide Spread, Quotient, MovesTowards, IsHighest, IsMaxJitter, Reordered, Records;
    var n := |packets|;
    var before := Average(packets[..n - 1], window);
    StatsAreSound(packets, window);
    StatsAreSound(packets[..n - 1], window);
    if n > 1 {
      AverageMoves(before, packets[n - 1].jitter, n);
    }
  }

  /** The sum over all packets but the first of the distance from the average before times that from the one after. */
  ghost function Deviations(packets: seq<Arrival>, window: uint32): real {
    if |packets| <= 1 then 0.0
    else
      var init, jitter := packets[..|packets| - 1], packets[|packets| - 1].jitter;
      Deviations(init, window)
      + (jitter - Average(init, window)) as real * (jitter - Average(packets, window)) as real
  }

  lemma SpreadIsProduct(jitter: int, before: int, after: int)
    ensures Spread(jitter, before, after) == (jitter - before) as real * (jitter - after) as real
  {
  }

  lemma VarianceStep(packets: seq<Arrival>, window: uint32)
    requires 0 < |packets| < 0x1_0000_0000
    ensures var init, last := packets[..|packets| - 1], packets[|packets| - 1];
            && Run(packets, window).Some? && Run(init, window).Some?
            && Run(packets, window).value.jitterVariance
               == if |packets| == 1 then 0.0
                  else Run(init, window).value.jitterVariance
                       + Spread(last.jitter, Average(init, window), Average(packets, window))
  {
    hide Quotient, Spread, IsHighest, IsMaxJitter, Reordered, Records;
    StatsAreSound(packets, window);
    StatsAreSound(packets[..|packets| - 1], window);
  }

  lemma {:induction false} VarianceIsSum(packets: seq<Arrival>, window: uint32)
    requires |packets| < 0x1_0000_0000
    ensures Run(packets, window).Some? && Run(packets, window).value.jitterVariance == Deviations(packets, window)
  {
    if |packets| > 0 {
      hide Run, Average, Spread;
      var init, last := packets[..|packets| - 1], packets[|packets| - 1];
      VarianceIsSum(init, window);
      VarianceStep(packets, window);
      SpreadIsProduct(last.jitter, Average(init, window), Average(packets, window));
    }
  }
}
