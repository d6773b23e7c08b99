/** The latency cache: entries live for a minute, and a background cleaner deletes the expired ones. */
module LatencyCache {
  import opened Keys
  import opened MapRange

  /** One minute, in nanoseconds. */
  const EXPIRATION := 60_000_000_000

  datatype Entry = Entry(latency: real, expiration: int)

  type Cache = map<string, Entry>

  /** What a caller gets: a latency, an error, or (for a write or a cleaning) nothing. */
  datatype Answer = Latency(value: real) | NoLatency | Nothing

  /**
   One use of the cache, with the clock readings it makes: `look` when an entry is checked, `store` when one is
   written.  `ping` is what the metrics report, zero if they report nothing.
   */
  datatype Op =
    | Get(src: int, dst: int, look: int, store: int, ping: real)
    | Refresh(src: int, dst: int, look: int, store: int, ping: real)
    | Overwrite(src: int, dst: int, store: int, latency: real)
    | Clean(now: int)

  function Lookup(cache: Cache, src: int, dst: int, look: int, store: int, ping: real): (Cache, Answer) {
    var key := PairKey(src, dst);
    if key in cache && look < cache[key].expiration then (cache, Latency(cache[key].latency))
    else if ping == 0.0 then (cache, NoLatency)
    else (cache[key := Entry(ping / 2.0, store + EXPIRATION)], Latency(ping / 2.0))
  }

  function Cleaned(cache: Cache, now: int): Cache {
    map k | k in cache && now <= cache[k].expiration :: cache[k]
  }

  function Apply(cache: Cache, op: Op): (Cache, Answer) {
    match op
    case Get(src, dst, look, store, ping) => Lookup(cache, src, dst, look, store, ping)
    case Refresh(src, dst, look, store, ping) => Lookup(cache - {PairKey(src, dst)}, src, dst, look, store, ping)
    case Overwrite(src, dst, store, latency) =>
      (cache[PairKey(src, dst) := Entry(latency, store + EXPIRATION)], Nothing)
    case Clean(now) => (Cleaned(cache, now), Nothing)
  }

  class PathLatencyCache {
    var cache: Cache

    constructor ()
      ensures cache == map[]
    {
      cache := map[];
    }

    method GetPathLatency(src: int, dst: int, look: int, store: int, ping: real) returns (answer: Answer)
      modifies this
      ensures (cache, answer) == Apply(old(cache), Get(src, dst, look, store, ping))
    {
      var key := PairKey(src, dst);
      if key in cache && look < cache[key].expiration {
        return Latency(cache[key].latency);
      }
      var latency := SetPathLatency(ping);
      if latency == NoLatency {
        return NoLatency;
      }
      cache := cache[key := Entry(latency.value, store + EXPIRATION)];
      return latency;
    }

    method SetPathLatency(ping: real) returns (latency: Answer)
      ensures latency == if ping == 0.0 then NoLatency else Latency(ping / 2.0)
    {
      if ping == 0.0 {
        return NoLatency;
      }
      return Latency(ping / 2.0);
    }

    method OverwritePathLatency(src: int, dst: int, store: int, latency: real)
      modifies this
      ensures (cache, Nothing) == Apply(old(cache), Overwrite(src, dst, store, latency))
    {
      cache := cache[PairKey(src, dst) := Entry(latency, store + EXPIRATION)];
    }

    method RefreshPathLatency(src: int, dst: int, look: int, store: int, ping: real) returns (answer: Answer)
      modifies this
      ensures (cache, answer) == Apply(old(cache), Refresh(src, dst, look, store, ping))
      ensures answer == if ping == 0.0 then NoLatency else Latency(ping / 2.0)
    {
      cache := cache - {PairKey(src, dst)};
      answer := GetPathLatency(src, dst, look, store, ping);
    }

    /** One tick of the cleaner. */
    method CleanExpired(now: int)
      modifies this
      ensures (cache, Nothing) == Apply(old(cache), Clean(now))
      ensures forall k :: k in cache <==> k in old(cache) && now <= old(cache)[k].expiration
      ensures forall k :: k in cache ==> cache[k] == old(cache)[k]
    {
      var before, left := cache, cache.Keys;
      while left != {}
        invariant forall k :: k in left ==> k in before
        invariant forall k :: k in cache <==> k in before && (k in left || now <= before[k].expiration)
        invariant forall k :: k in cache ==> cache[k] == before[k]
        decreases left
      {
        var key;
        key, left := NextKey(left);
        if now > cache[key].expiration {
          cache := cache - {key};
        }
      }
      SameMap(cache, Cleaned(before, now));
    }
  }

  // ---------- Runs ----------

  /** The first and the last clock reading of a use. */
  function First(op: Op): int {
    match op
    case Get(_, _, look, _, _) => look
    case Refresh(_, _, look, _, _) => look
    case Overwrite(_, _, store, _) => store
    case Clean(now) => now
  }

  function Final(op: Op): int {
    match op
    case Get(_, _, _, store, _) => store
    case Refresh(_, _, _, store, _) => store
    case Overwrite(_, _, store, _) => store
    case Clean(now) => now
  }

  /** A sequential run with a clock that never goes back. */
  ghost predicate Timed(ops: seq<Op>) {
    && (forall i :: 0 <= i < |ops| ==> First(ops[i]) <= Final(ops[i]))
    && (forall i, j :: 0 <= i < j < |ops| ==> Final(ops[i]) <= First(ops[j]))
  }

  /** The cache after a run; with `cleaning` off, the cleaner does nothing. */
  ghost function After(ops: seq<Op>, cleaning: bool): Cache {
    if ops == [] then map[]
    else
      var c := After(ops[..|ops| - 1], cleaning);
      var op := ops[|ops| - 1];
      if op.Clean? && !cleaning then c else Apply(c, op).0
  }

  /** The answer to use `i` of the run. */
  ghost function AnswerTo(ops: seq<Op>, i: nat, cleaning: bool): Answer
    requires i < |ops|
  {
    Apply(After(ops[..i], cleaning), ops[i]).1
  }

  /** `a` is `b` without some entries that had expired by the time `now`. */
  ghost predicate Thinned(a: Cache, b: Cache, now: int) {
    && (forall k :: k in a ==> k in b && a[k] == b[k])
    && (forall k :: k in b && k !in a ==> b[k].expiration < now)
  }

  lemma ThinnedStep(a: Cache, b: Cache, now: int, op: Op)
    requires Thinned(a, b, now) && now <= First(op) <= Final(op)
    ensures Apply(a, op).1 == Apply(b, op).1
    ensures Thinned(Apply(a, op).0, if op.Clean? then b else Apply(b, op).0, Final(op))
  {
  }

  lemma {:induction false} StaysThinned(ops: seq<Op>, now: int)
    requires Timed(ops) && forall i :: 0 <= i < |ops| ==> Final(ops[i]) <= now
    ensures Thinned(After(ops, true), After(ops, false), now)
  {
    if ops != [] {
      var init, op := ops[..|ops| - 1], ops[|ops| - 1];
      StaysThinned(init, First(op));
      ThinnedStep(After(init, true), After(init, false), First(op), op);
    }
  }

  /** The cleaner is never noticed: every use is answered as if there were none. */
  lemma CleanerIsInvisible(ops: seq<Op>, i: nat)
    requires Timed(ops) && i < |ops|
    ensures AnswerTo(ops, i, true) == AnswerTo(ops, i, false)
  {
    StaysThinned(ops[..i], First(ops[i]));
    ThinnedStep(After(ops[..i], true), After(ops[..i], false), First(ops[i]), ops[i]);
  }

  // ---------- What a lookup answers ----------

  /** What a use that finds no valid entry answers: half of what the metrics report, if they report anything. */
  function Computed(ping: real): Answer {
    if ping == 0.0 then NoLatency else Latency(ping / 2.0)
  }

  /** A refresh never answers from the cache. */
  lemma RefreshIsComputed(ops: seq<Op>, i: nat, cleaning: bool)
    requires i < |ops| && ops[i].Refresh?
    ensures ops[i].ping == 0.0 ==> AnswerTo(ops, i, cleaning) == NoLatency
    ensures ops[i].ping != 0.0 ==> AnswerTo(ops, i, cleaning) == Latency(ops[i].ping / 2.0)
  {
  }

  /** The use does not write or delete the entry of the pair, unless it finds none that is valid. */
  predicate LeavesAlone(op: Op, src: int, dst: int) {
    match op
    case Get(_, _, _, _, _) => true
    case Refresh(s, d, _, _, _) => !(s == src && d == dst)
    case Overwrite(s, d, _, _) => !(s == src && d == dst)
    case Clean(_) => true
  }

  /**
   Use `i` puts `v` into the cache: written by hand, or computed by a refresh, or computed by a lookup for which nothing
   is remembered.
   */
  ghost predicate Puts(ops: seq<Op>, i: nat, v: real)
    requires i < |ops|
    decreases i, 1
  {
    var op := ops[i];
    && !op.Clean?
    && (op.Overwrite? ==> v == op.latency)
    && (op.Get? || op.Refresh? ==> op.ping != 0.0 && v == op.ping / 2.0)
    && (op.Get? ==> forall w :: !Remembered(ops, i, w))
  }

  /** Before lookup `i` the latency was put in for its pair, less than a minute ago, and left alone since. */
  ghost predicate Remembered(ops: seq<Op>, i: nat, v: real)
    requires i < |ops| && ops[i].Get?
    decreases i, 0
  {
    exists j :: 0 <= j < i && Puts(ops, j, v) && IsFor(ops[j], ops[i].src, ops[i].dst)
                && ops[i].look < ops[j].store + EXPIRATION
                && forall k :: j < k < i ==> LeavesAlone(ops[k], ops[i].src, ops[i].dst)
  }

  predicate IsFor(op: Op, src: int, dst: int) {
    !op.Clean? && op.src == src && op.dst == dst
  }

  /** Before use `n` the entry of the pair is the one that use `j` put in. */
  ghost predicate IsSource(ops: seq<Op>, n: nat, j: nat, src: int, dst: int, e: Entry)
    requires n <= |ops|
  {
    && j < n && Puts(ops, j, e.latency) && IsFor(ops[j], src, dst) && e.expiration == ops[j].store + EXPIRATION
    && forall k :: j < k < n ==> LeavesAlone(ops[k], src, dst)
  }

  lemma PutsEntry(ops: seq<Op>, i: nat, v: real, cleaning: bool)
    requires Timed(ops) && i < |ops| && Puts(ops, i, v)
    ensures !ops[i].Clean?
    ensures var key := PairKey(ops[i].src, ops[i].dst);
            var c := Apply(After(ops[..i], cleaning), ops[i]).0;
            key in c && c[key] == Entry(v, ops[i].store + EXPIRATION)
    decreases i, 1
  {
    hide PairKey;
    var op, c := ops[i], After(ops[..i], cleaning);
    if op.Get? && PairKey(op.src, op.dst) in c && op.look < c[PairKey(op.src, op.dst)].expiration {
      var j := FindSource(ops, i, op.src, op.dst, cleaning);
      SourceIsRemembered(ops, i, j, c[PairKey(op.src, op.dst)]);
      assert false;
    }
  }

  /** What has been put in stays there for a minute, if it is left alone. */
  lemma {:induction false} EntryStays(ops: seq<Op>, i: nat, n: nat, v: real, cleaning: bool)
    requires Timed(ops) && i < n <= |ops| && Puts(ops, i, v)
    requires !ops[i].Clean? && forall k :: i < k < n ==>
               LeavesAlone(ops[k], ops[i].src, ops[i].dst) && Final(ops[k]) < ops[i].store + EXPIRATION
    ensures var key := PairKey(ops[i].src, ops[i].dst);
            && key in After(ops[..n], cleaning)
            && After(ops[..n], cleaning)[key] == Entry(v, ops[i].store + EXPIRATION)
    decreases n, 0
  {
    hide PairKey, Puts;
    assert ops[..n][..n - 1] == ops[..n - 1];
    var op := ops[n - 1];
    if i < n - 1 {
      EntryStays(ops, i, n - 1, v, cleaning);
      if !op.Clean? && PairKey(op.src, op.dst) == PairKey(ops[i].src, ops[i].dst) {
        PairKeyInjective(op.src, op.dst, ops[i].src, ops[i].dst);
      }
    } else {
      PutsEntry(ops, i, v, cleaning);
    }
  }

  /** Every entry of the cache was put in by some use and has been left alone since. */
  lemma {:induction false} FindSource(ops: seq<Op>, n: nat, src: int, dst: int, cleaning: bool) returns (j: nat)
    requires Timed(ops) && n <= |ops| && PairKey(src, dst) in After(ops[..n], cleaning)
    ensures IsSource(ops, n, j, src, dst, After(ops[..n], cleaning)[PairKey(src, dst)])
    decreases n, 0
  {
    hide PairKey, Puts;
    assert ops[..n][..n - 1] == ops[..n - 1];
    var op, c, key := ops[n - 1], After(ops[..n - 1], cleaning), PairKey(src, dst);
    if !op.Clean? && PairKey(op.src, op.dst) == key {
      PairKeyInjective(op.src, op.dst, src, dst);
    }
    if IsFor(op, src, dst) && !(op.Get? && (op.ping == 0.0 || (key in c && op.look < c[key].expiration))) {
      j := n - 1;
      if op.Get? {
        MissRemembersNothing(ops, j, cleaning);
      }
      PutsAt(ops, j);
      assert IsSource(ops, n, j, src, dst, After(ops[..n], cleaning)[key]);
    } else {
      assert key in c && After(ops[..n], cleaning)[key] == c[key];
      j := FindSource(ops, n - 1, src, dst, cleaning);
      assert LeavesAlone(op, src, dst);
    }
  }

  lemma PutsAt(ops: seq<Op>, i: nat)
    requires i < |ops| && !ops[i].Clean?
    requires ops[i].Get? ==> forall w :: !Remembered(ops, i, w)
    ensures ops[i].Overwrite? ==> Puts(ops, i, ops[i].latency)
    ensures !ops[i].Overwrite? && ops[i].ping != 0.0 ==> Puts(ops, i, ops[i].ping / 2.0)
  {
  }

  lemma MissRemembersNothing(ops: seq<Op>, i: nat, cleaning: bool)
    requires Timed(ops) && i < |ops| && ops[i].Get?
    requires var c, key := After(ops[..i], cleaning), PairKey(ops[i].src, ops[i].dst);
             !(key in c && ops[i].look < c[key].expiration)
    ensures forall w :: !Remembered(ops, i, w)
    decreases i, 2
  {
    hide PairKey, Puts;
    forall w
      ensures !Remembered(ops, i, w)
    {
      if Remembered(ops, i, w) {
        SeenInCache(ops, i, w, cleaning);
        assert false;
      }
    }
  }

  lemma SeenInCache(ops: seq<Op>, i: nat, v: real, cleaning: bool)
    requires Timed(ops) && i < |ops| && ops[i].Get? && Remembered(ops, i, v)
    ensures var c, key := After(ops[..i], cleaning), PairKey(ops[i].src, ops[i].dst);
            key in c && ops[i].look < c[key].expiration && c[key].latency == v
    decreases i, 1
  {
    hide PairKey, Puts;
    var j :| 0 <= j < i && Puts(ops, j, v) && IsFor(ops[j], ops[i].src, ops[i].dst)
             && ops[i].look < ops[j].store + EXPIRATION
             && forall k :: j < k < i ==> LeavesAlone(ops[k], ops[i].src, ops[i].dst);
    EntryStays(ops, j, i, v, cleaning);
  }

  /**
   Over every run a lookup returns what was put in for its pair less than a minute ago and left alone since, if
   anything was, and is computed anew if not.
   */
  lemma GetAnswers(ops: seq<Op>, i: nat, cleaning: bool)
    requires Timed(ops) && i < |ops| && ops[i].Get?
    ensures forall v :: Remembered(ops, i, v) ==> AnswerTo(ops, i, cleaning) == Latency(v)
    ensures (forall v :: !Remembered(ops, i, v)) ==> AnswerTo(ops, i, cleaning) == Computed(ops[i].ping)
  {
    hide PairKey, Remembered;
    var op, c := ops[i], After(ops[..i], cleaning);
    forall v | Remembered(ops, i, v)
      ensures AnswerTo(ops, i, cleaning) == Latency(v)
    {
      SeenInCache(ops, i, v, cleaning);
    }
    var key := PairKey(op.src, op.dst);
    if key in c && op.look < c[key].expiration {
      var j := FindSource(ops, i, op.src, op.dst, cleaning);
      SourceIsRemembered(ops, i, j, c[key]);
    }
  }

  lemma SourceIsRemembered(ops: seq<Op>, i: nat, j: nat, e: Entry)
    requires i < |ops| && ops[i].Get? && IsSource(ops, i, j, ops[i].src, ops[i].dst, e) && ops[i].look < e.expiration
    ensures Remembered(ops, i, e.latency)
  {
    hide Puts;
  }

  /**
   A latency put into the cache is what the next minute's lookups of that pair return, whatever the metrics report by
   then and whatever is done to other pairs, unless the pair is refreshed or overwritten.
   */
  lemma StoredIsSeen(ops: seq<Op>, i: nat, j: nat, v: real, cleaning: bool)
    requires Timed(ops) && i < j < |ops| && Puts(ops, i, v) && ops[j].Get? && IsFor(ops[i], ops[j].src, ops[j].dst)
    requires ops[j].look < ops[i].store + 60_000_000_000
    requires forall k :: i < k < j ==> LeavesAlone(ops[k], ops[j].src, ops[j].dst)
    ensures AnswerTo(ops, j, cleaning) == Latency(v)
  {
    hide Puts;
    assert Remembered(ops, j, v);
    GetAnswers(ops, j, cleaning);
  }

  /** A value written by hand is what the next minute's lookups of that pair return. */
  lemma OverwriteIsSeen(ops: seq<Op>, i: nat, j: nat, cleaning: bool)
    requires Timed(ops) && i < j < |ops| && ops[i].Overwrite? && ops[j].Get?
    requires ops[j].src == ops[i].src && ops[j].dst == ops[i].dst && ops[j].look < ops[i].store + EXPIRATION
    requires forall k :: i < k < j ==> LeavesAlone(ops[k], ops[i].src, ops[i].dst)
    ensures AnswerTo(ops, j, cleaning) == Latency(ops[i].latency)
  {
    StoredIsSeen(ops, i, j, ops[i].latency, cleaning);
  }

  /** Use `op` writes the latency `v` for `(src, dst)` at time `store`, if it finds no valid entry. */
  predicate Stores(op: Op, src: int, dst: int, v: real, store: int) {
    match op
    case Get(s, d, _, t, ping) => s == src && d == dst && t == store && ping != 0.0 && v == ping / 2.0
    case Refresh(s, d, _, t, ping) => s == src && d == dst && t == store && ping != 0.0 && v == ping / 2.0
    case Overwrite(s, d, t, latency) => s == src && d == dst && t == store && v == latency
    case Clean(_) => false
  }

  /** Some use before the end of the run stored the entry under this key. */
  ghost predicate Stored(ops: seq<Op>, key: string, e: Entry) {
    exists j, s, d :: 0 <= j < |ops| && key == PairKey(s, d)
                      && Stores(ops[j], s, d, e.latency, e.expiration - EXPIRATION)
  }

  lemma {:induction false} EntriesWereStored(ops: seq<Op>, cleaning: bool, key: string)
    requires key in After(ops, cleaning)
    ensures Stored(ops, key, After(ops, cleaning)[key])
  {
    var init, op := ops[..|ops| - 1], ops[|ops| - 1];
    var c, c' := After(init, cleaning), After(ops, cleaning);
    if key in c && c'[key] == c[key] {
      EntriesWereStored(init, cleaning, key);
      var j, s, d :| 0 <= j < |init| && key == PairKey(s, d)
                     && Stores(init[j], s, d, c[key].latency, c[key].expiration - EXPIRATION);
      assert ops[j] == init[j];
    } else {
      assert Stores(op, op.src, op.dst, c'[key].latency, c'[key].expiration - EXPIRATION);
    }
  }

  /**
   Every latency given out was computed by this very use, or else the use is a lookup and it was stored for the same
   pair by an earlier use less than a minute ago.
   */
  lemma AnswersAreFresh(ops: seq<Op>, i: nat, cleaning: bool)
    requires i < |ops| && AnswerTo(ops, i, cleaning).Latency?
    ensures ops[i].Get? || ops[i].Refresh?
    ensures var v := AnswerTo(ops, i, cleaning).value;
            || (ops[i].ping != 0.0 && v == ops[i].ping / 2.0)
            || (ops[i].Get?
                && exists j, store :: 0 <= j < i && Stores(ops[j], ops[i].src, ops[i].dst, v, store)
                                      && ops[i].look < store + 60_000_000_000)
  {
    var op, c := ops[i], After(ops[..i], cleaning);
    var key := PairKey(op.src, op.dst);
    if op.Get? && key in c && op.look < c[key].expiration {
      EntriesWereStored(ops[..i], cleaning, key);
      var j, s, d :| 0 <= j < i && key == PairKey(s, d)
                     && Stores(ops[..i][j], s, d, c[key].latency, c[key].expiration - EXPIRATION);
      PairKeyInjective(op.src, op.dst, s, d);
      assert Stores(ops[j], op.src, op.dst, c[key].latency, c[key].expiration - EXPIRATION);
    }
  }
}
