/** The binary packet format of pathping: little-endian integers at fixed offsets, then two arrays. */
module Codec {
  import opened Wrappers

  type byte = b: int | 0 <= b < 0x100
  type uint16 = x: int | 0 <= x < 0x1_0000
  type int64 = x: int | -0x8000_0000_0000_0000 <= x < 0x8000_0000_0000_0000

  const HEADER := 26

  datatype Packet = Packet(
    id: int64,
    origin: uint16,
    currentHop: uint16,
    sequence: uint16,
    pathLength: uint16,
    status: uint16,
    startTime: int64,
    path: seq<uint16>,
    pathVer: seq<uint16>)

  datatype DecodeError = TooSmall | InvalidPathLength

  /** The conversion uint16(x): the low 16 bits. */
  function Uint16(x: int): uint16 {
    x % 0x1_0000
  }

  function Uint64(x: int64): (r: nat)
    ensures r < Base(8)
  {
    BaseValues();
    if x < 0 then x + 0x1_0000_0000_0000_0000 else x
  }

  function Int64(x: nat): int64
    requires x < Base(8)
  {
    BaseValues();
    if x >= 0x8000_0000_0000_0000 then x - 0x1_0000_0000_0000_0000 else x
  }

  // ---------- Little-endian integers ----------

  function Base(k: nat): (r: nat)
    ensures r > 0
  {
    if k == 0 then 1 else 0x100 * Base(k - 1)
  }

  lemma BaseValues()
    ensures Base(2) == 0x1_0000 && Base(8) == 0x1_0000_0000_0000_0000
  {
    assert Base(4) == 0x1_0000_0000;
    assert Base(6) == 0x1_0000_0000_0000;
  }

  function ToBytes(v: nat, k: nat): (s: seq<byte>)
    ensures |s| == k
  {
    if k == 0 then [] else [v % 0x100] + ToBytes(v / 0x100, k - 1)
  }

  function FromBytes(s: seq<byte>): (v: nat)
    ensures v < Base(|s|)
  {
    if s == [] then 0 else s[0] + 0x100 * FromBytes(s[1..])
  }

  lemma {:induction false} BytesRoundTrip(v: nat, k: nat)
    requires v < Base(k)
    ensures FromBytes(ToBytes(v, k)) == v
  {
    if k > 0 {
      BytesRoundTrip(v / 0x100, k - 1);
      assert ToBytes(v, k)[1..] == ToBytes(v / 0x100, k - 1);
    }
  }

  lemma {:induction false} ValueRoundTrip(s: seq<byte>)
    ensures ToBytes(FromBytes(s), |s|) == s
  {
    if s != [] {
      var v := FromBytes(s);
      assert v % 0x100 == s[0] && v / 0x100 == FromBytes(s[1..]);
      ValueRoundTrip(s[1..]);
    }
  }

  // ---------- Arrays of 16-bit words ----------

  function WordBytes(ws: seq<uint16>): (s: seq<byte>)
    ensures |s| == 2 * |ws|
  {
    if ws == [] then [] else WordBytes(ws[..|ws| - 1]) + ToBytes(ws[|ws| - 1], 2)
  }

  function ReadWord(s: seq<byte>, at: nat): (w: uint16)
    requires at + 2 <= |s|
  {
    BaseValues();
    FromBytes(s[at..at + 2])
  }

  function ReadWords(s: seq<byte>, at: nat, n: nat): (ws: seq<uint16>)
    requires at + 2 * n <= |s|
    ensures |ws| == n
  {
    if n == 0 then [] else ReadWords(s, at, n - 1) + [ReadWord(s, at + 2 * (n - 1))]
  }

  lemma {:induction false} WordsRoundTrip(s: seq<byte>, at: nat, ws: seq<uint16>)
    requires at + 2 * |ws| <= |s| && s[at..at + 2 * |ws|] == WordBytes(ws)
    ensures ReadWords(s, at, |ws|) == ws
  {
    hide FromBytes, ToBytes, Base;
    if ws != [] {
      var n := |ws| - 1;
      var all := WordBytes(ws);
      assert s[at..at + 2 * n] == all[..2 * n] == WordBytes(ws[..n]);
      WordsRoundTrip(s, at, ws[..n]);
      assert s[at + 2 * n..at + 2 * n + 2] == all[2 * n..] == ToBytes(ws[n], 2);
      BaseValues();
      BytesRoundTrip(ws[n], 2);
    }
  }

  lemma {:induction false} ReadRoundTrip(s: seq<byte>, at: nat, n: nat)
    requires at + 2 * n <= |s|
    ensures WordBytes(ReadWords(s, at, n)) == s[at..at + 2 * n]
  {
    hide FromBytes, ToBytes, Base;
    if n > 0 {
      ReadRoundTrip(s, at, n - 1);
      var ws := ReadWords(s, at, n);
      assert ws[..n - 1] == ReadWords(s, at, n - 1);
      var mid := at + 2 * (n - 1);
      ValueRoundTrip(s[mid..mid + 2]);
      assert s[at..at + 2 * n] == s[at..mid] + s[mid..mid + 2];
    }
  }

  // ---------- Packets ----------

  predicate WellFormed(p: Packet) {
    |p.path| == |p.pathVer| == p.pathLength
  }

  function PacketSize(p: Packet): nat {
    HEADER + p.pathLength * 4
  }

  function Header(p: Packet): (s: seq<byte>)
    ensures |s| == HEADER
  {
    ToBytes(Uint64(p.id), 8) + ToBytes(p.origin, 2) + ToBytes(p.currentHop, 2) + ToBytes(p.sequence, 2)
    + ToBytes(p.pathLength, 2) + ToBytes(p.status, 2) + ToBytes(Uint64(p.startTime), 8)
  }

  /** The bytes of a packet; the source indexes both arrays up to PathLength. */
  function Encode(p: Packet): (s: seq<byte>)
    requires |p.path| >= p.pathLength && |p.pathVer| >= p.pathLength
    ensures |s| == PacketSize(p)
  {
    Header(p) + WordBytes(p.path[..p.pathLength]) + WordBytes(p.pathVer[..p.pathLength])
  }

  function ReadHeader(buf: seq<byte>): Packet
    requires |buf| >= HEADER
  {
    Packet(Int64(FromBytes(buf[0..8])), ReadWord(buf, 8), ReadWord(buf, 10), ReadWord(buf, 12),
           ReadWord(buf, 14), ReadWord(buf, 16), Int64(FromBytes(buf[18..26])), [], [])
  }

  /** `maxHops` is the flag pathping.max, which the source converts to 16 bits. */
  function Decode(buf: seq<byte>, maxHops: int): Result<Packet, DecodeError> {
    if |buf| < HEADER then Failure(TooSmall)
    else
      var h := ReadHeader(buf);
      if h.pathLength > Uint16(maxHops) then Failure(InvalidPathLength)
      else if |buf| < PacketSize(h) then Failure(TooSmall)
      else
        Success(h.(path := ReadWords(buf, HEADER, h.pathLength),
                   pathVer := ReadWords(buf, HEADER + 2 * h.pathLength, h.pathLength)))
  }

  lemma HeaderRoundTrip(p: Packet, rest: seq<byte>)
    ensures ReadHeader(Header(p) + rest) == p.(path := [], pathVer := [])
  {
    var buf := Header(p) + rest;
    BaseValues();
    assert buf[0..8] == ToBytes(Uint64(p.id), 8);
    assert buf[8..10] == ToBytes(p.origin, 2);
    assert buf[10..12] == ToBytes(p.currentHop, 2);
    assert buf[12..14] == ToBytes(p.sequence, 2);
    assert buf[14..16] == ToBytes(p.pathLength, 2);
    assert buf[16..18] == ToBytes(p.status, 2);
    assert buf[18..26] == ToBytes(Uint64(p.startTime), 8);
    BytesRoundTrip(Uint64(p.id), 8);
    BytesRoundTrip(p.origin, 2);
    BytesRoundTrip(p.currentHop, 2);
    BytesRoundTrip(p.sequence, 2);
    BytesRoundTrip(p.pathLength, 2);
    BytesRoundTrip(p.status, 2);
    BytesRoundTrip(Uint64(p.startTime), 8);
  }

  lemma HeaderBytes(buf: seq<byte>)
    requires |buf| >= HEADER
    ensures Header(ReadHeader(buf)) == buf[..HEADER]
  {
    BaseValues();
    ValueRoundTrip(buf[0..8]);
    ValueRoundTrip(buf[8..10]);
    ValueRoundTrip(buf[10..12]);
    ValueRoundTrip(buf[12..14]);
    ValueRoundTrip(buf[14..16]);
    ValueRoundTrip(buf[16..18]);
    ValueRoundTrip(buf[18..26]);
    assert buf[..26] == buf[0..8] + buf[8..10] + buf[10..12] + buf[12..14] + buf[14..16] + buf[16..18] + buf[18..26];
  }

  /** Reading back what was written, whatever bytes follow. */
  lemma DecodeEncode(p: Packet, suffix: seq<byte>, maxHops: int)
    requires WellFormed(p) && p.pathLength <= Uint16(maxHops)
    ensures Decode(Encode(p) + suffix, maxHops) == Success(p)
  {
    hide FromBytes, ToBytes, Base, WordBytes, ReadWords, ReadHeader, Header;
    var n: nat := p.pathLength;
    var buf := Encode(p) + suffix;
    assert p.path[..n] == p.path && p.pathVer[..n] == p.pathVer;
    assert buf == Header(p) + (WordBytes(p.path) + WordBytes(p.pathVer) + suffix);
    HeaderRoundTrip(p, WordBytes(p.path) + WordBytes(p.pathVer) + suffix);
    assert buf[HEADER..HEADER + 2 * n] == WordBytes(p.path);
    assert buf[HEADER + 2 * n..HEADER + 4 * n] == WordBytes(p.pathVer);
    WordsRoundTrip(buf, HEADER, p.path);
    WordsRoundTrip(buf, HEADER + 2 * n, p.pathVer);
  }

  lemma HeaderIgnoresArrays(p: Packet, path: seq<uint16>, pathVer: seq<uint16>)
    ensures Header(p.(path := path, pathVer := pathVer)) == Header(p)
  {
  }

  /** Writing back what was read gives the bytes that were read. */
  lemma EncodeDecode(buf: seq<byte>, maxHops: int)
    requires Decode(buf, maxHops).Success?
    ensures var p := Decode(buf, maxHops).value;
            WellFormed(p) && PacketSize(p) <= |buf| && Encode(p) == buf[..PacketSize(p)]
  {
    hide FromBytes, ToBytes, Base, WordBytes, ReadWords, ReadHeader, Header;
    var p := Decode(buf, maxHops).value;
    var n: nat := p.pathLength;
    HeaderBytes(buf);
    HeaderIgnoresArrays(ReadHeader(buf), p.path, p.pathVer);
    ReadRoundTrip(buf, HEADER, n);
    ReadRoundTrip(buf, HEADER + 2 * n, n);
    assert p.path[..n] == p.path && p.pathVer[..n] == p.pathVer;
    assert buf[..HEADER + 4 * n] == buf[..HEADER] + buf[HEADER..HEADER + 2 * n] + buf[HEADER + 2 * n..HEADER + 4 * n];
  }

  // ---------- The layout ----------

  /** The two bytes at `at`, the low one first. */
  function TwoBytes(buf: seq<byte>, at: nat): int
    requires at + 2 <= |buf|
  {
    buf[at] as int + 0x100 * buf[at + 1] as int
  }

  /** A 16-bit number at `at`. */
  predicate WordAt(buf: seq<byte>, at: nat, v: int) {
    at + 2 <= |buf| && v == TwoBytes(buf, at)
  }

  /** A 64-bit number at `at`, the low bytes first and negative numbers in two's complement. */
  predicate LongAt(buf: seq<byte>, at: nat, v: int) {
    && at + 8 <= |buf|
    && (v - (TwoBytes(buf, at) + 0x1_0000 * TwoBytes(buf, at + 2) + 0x1_0000_0000 * TwoBytes(buf, at + 4)
             + 0x1_0000_0000_0000 * TwoBytes(buf, at + 6))) % 0x1_0000_0000_0000_0000 == 0
  }

  lemma FromTwo(s: seq<byte>)
    requires |s| >= 2
    ensures FromBytes(s) == TwoBytes(s, 0) + 0x1_0000 * FromBytes(s[2..])
  {
    assert s[1..][1..] == s[2..];
    assert FromBytes(s[1..]) == s[1] + 0x100 * FromBytes(s[2..]);
  }

  lemma FromEight(s: seq<byte>)
    requires |s| == 8
    ensures FromBytes(s) == TwoBytes(s, 0) + 0x1_0000 * TwoBytes(s, 2) + 0x1_0000_0000 * TwoBytes(s, 4)
                            + 0x1_0000_0000_0000 * TwoBytes(s, 6)
  {
    FromTwo(s);
    FromTwo(s[2..]);
    FromTwo(s[4..]);
    FromTwo(s[6..]);
    assert s[2..][2..] == s[4..] && s[4..][2..] == s[6..];
  }

  lemma {:induction false} ReadWordsAt(s: seq<byte>, at: nat, n: nat, i: nat)
    requires at + 2 * n <= |s| && i < n
    ensures WordAt(s, at + 2 * i, ReadWords(s, at, n)[i])
  {
    hide FromBytes;
    if i == n - 1 {
      FromTwo(s[at + 2 * i..at + 2 * i + 2]);
    } else {
      ReadWordsAt(s, at, n - 1, i);
    }
  }

  lemma ReadLong(s: seq<byte>, at: nat)
    requires at + 8 <= |s|
    ensures FromBytes(s[at..at + 8]) < Base(8) && LongAt(s, at, Int64(FromBytes(s[at..at + 8])))
  {
    hide FromBytes;
    BaseValues();
    FromEight(s[at..at + 8]);
  }

  /** Where the fields of a packet lie in the bytes, whoever has written them. */
  lemma Layout(buf: seq<byte>, maxHops: int)
    requires Decode(buf, maxHops).Success?
    ensures var p := Decode(buf, maxHops).value;
            && LongAt(buf, 0, p.id) && WordAt(buf, 8, p.origin) && WordAt(buf, 10, p.currentHop)
            && WordAt(buf, 12, p.sequence) && WordAt(buf, 14, p.pathLength) && WordAt(buf, 16, p.status)
            && LongAt(buf, 18, p.startTime) && |p.path| == |p.pathVer| == p.pathLength
            && forall i :: 0 <= i < p.pathLength ==>
                 && WordAt(buf, 26 + 2 * i, p.path[i])
                 && WordAt(buf, 26 + 2 * p.pathLength + 2 * i, p.pathVer[i])
  {
    hide FromBytes, Base, WordAt, LongAt;
    var p := Decode(buf, maxHops).value;
    ReadLong(buf, 0);
    ReadLong(buf, 18);
    forall at | at in {8, 10, 12, 14, 16}
      ensures WordAt(buf, at, ReadWord(buf, at))
    {
      ReadWordsAt(buf, at, 1, 0);
    }
    forall i | 0 <= i < p.pathLength
      ensures WordAt(buf, 26 + 2 * i, p.path[i]) && WordAt(buf, 26 + 2 * p.pathLength + 2 * i, p.pathVer[i])
    {
      ReadWordsAt(buf, HEADER, p.pathLength, i);
      ReadWordsAt(buf, HEADER + 2 * p.pathLength, p.pathLength, i);
    }
  }

  /** Which bytes are rejected, and with which error: the length of the path is read before the arrays are. */
  lemma RejectedIff(buf: seq<byte>, maxHops: int)
    ensures Decode(buf, maxHops) == Failure(InvalidPathLength) <==>
              |buf| >= 26 && TwoBytes(buf, 14) > maxHops % 0x1_0000
    ensures Decode(buf, maxHops) == Failure(TooSmall) <==>
              |buf| < 26 || |buf| < 26 + 4 * TwoBytes(buf, 14) <= 26 + 4 * (maxHops % 0x1_0000)
  {
    hide FromBytes, Base;
    if |buf| >= 26 {
      ReadWordsAt(buf, 14, 1, 0);
    }
  }

  // ---------- The receive buffer ----------

  /**
   The size of the receive buffer.  It is computed from the default of pathping.max before the flags are
   parsed, so it stays at this value whatever the flag says.
   */
  const MAX_PACKET_SIZE := HEADER + 16 * 4

  /** What a read of one datagram leaves in the receive buffer. */
  function Received(buf: seq<byte>): seq<byte> {
    if |buf| <= MAX_PACKET_SIZE then buf else buf[..MAX_PACKET_SIZE]
  }

  /** A packet arrives intact if and only if it visits at most 16 nodes; a longer one is rejected as too small. */
  lemma ArrivesIffShort(p: Packet, maxHops: int)
    requires WellFormed(p) && p.pathLength <= Uint16(maxHops)
    ensures p.pathLength <= 16 ==> Decode(Received(Encode(p)), maxHops) == Success(p)
    ensures p.pathLength > 16 ==> Decode(Received(Encode(p)), maxHops) == Failure(TooSmall)
  {
    if p.pathLength <= 16 {
      DecodeEncode(p, [], maxHops);
      assert Encode(p) + [] == Encode(p);
    } else {
      var buf := Received(Encode(p));
      assert buf == Header(p) + buf[HEADER..];
      HeaderRoundTrip(p, buf[HEADER..]);
    }
  }

  // ---------- The imperative codec ----------

  /** binary.LittleEndian.PutUint16 and PutUint64, for `k` bytes at `offset`. */
  method PutBytes(buf: array<byte>, offset: nat, v: nat, k: nat)
    requires offset + k <= buf.Length
    modifies buf
    ensures buf[..offset] == old(buf[..offset])
    ensures buf[..offset + k] == old(buf[..offset]) + ToBytes(v, k)
    ensures buf[offset + k..] == old(buf[offset + k..])
  {
    var rest := v;
    for i := 0 to k
      invariant buf[..offset] == old(buf[..offset]) && buf[offset + k..] == old(buf[offset + k..])
      invariant ToBytes(v, k) == buf[offset..offset + i] + ToBytes(rest, k - i)
    {
      buf[offset + i] := rest % 0x100;
      rest := rest / 0x100;
    }
    assert buf[..offset + k] == buf[..offset] + buf[offset..offset + k];
  }

  lemma {:induction false} WordBytesStep(ws: seq<uint16>, i: nat)
    requires i < |ws|
    ensures WordBytes(ws[..i + 1]) == WordBytes(ws[..i]) + ToBytes(ws[i], 2)
  {
    assert ws[..i + 1][..i] == ws[..i];
  }

  /** Write the first `n` words of an array of the packet at `offset`. */
  method PutWords(buf: array<byte>, offset: nat, ws: seq<uint16>, n: nat)
    requires n <= |ws| && offset + 2 * n <= buf.Length
    modifies buf
    ensures buf[..offset + 2 * n] == old(buf[..offset]) + WordBytes(ws[..n])
    ensures buf[offset + 2 * n..] == old(buf[offset + 2 * n..])
  {
    hide ToBytes, WordBytes;
    var at := offset;
    assert buf[..offset] == old(buf[..offset]) + WordBytes(ws[..0]) by {
      NoWords(ws[..0]);
    }
    for i := 0 to n
      invariant at == offset + 2 * i
      invariant buf[..at] == old(buf[..offset]) + WordBytes(ws[..i])
      invariant buf[at..] == old(buf[at..])
    {
      WordBytesStep(ws, i);
      ghost var rest := buf[at..];
      PutBytes(buf, at, ws[i], 2);
      assert buf[at + 2..] == rest[2..] == old(buf[at + 2..]);
      at := at + 2;
    }
  }

  lemma NoWords(ws: seq<uint16>)
    requires ws == []
    ensures WordBytes(ws) == []
  {
  }

  method Serialize(p: Packet) returns (buf: array<byte>)
    requires |p.path| >= p.pathLength && |p.pathVer| >= p.pathLength
    ensures fresh(buf) && buf[..] == Encode(p)
  {
    hide WordBytes, Header;
    buf := new byte[PacketSize(p)](_ => 0);
    PutHeader(buf, p);
    var n: nat := p.pathLength;
    PutWords(buf, HEADER, p.path, n);
    PutWords(buf, HEADER + 2 * n, p.pathVer, n);
    assert buf[..] == buf[..HEADER + 2 * n + 2 * n];
  }

  method PutHeader(buf: array<byte>, p: Packet)
    requires buf.Length >= HEADER
    modifies buf
    ensures buf[..HEADER] == Header(p)
    ensures buf[HEADER..] == old(buf[HEADER..])
  {
    hide ToBytes;
    ghost var rest := buf[HEADER..];
    PutBytes(buf, 0, Uint64(p.id), 8);
    assert buf[HEADER..] == rest;
    PutBytes(buf, 8, p.origin, 2);
    assert buf[HEADER..] == rest;
    PutBytes(buf, 10, p.currentHop, 2);
    assert buf[HEADER..] == rest;
    PutBytes(buf, 12, p.sequence, 2);
    assert buf[HEADER..] == rest;
    PutBytes(buf, 14, p.pathLength, 2);
    assert buf[HEADER..] == rest;
    PutBytes(buf, 16, p.status, 2);
    assert buf[HEADER..] == rest;
    PutBytes(buf, 18, Uint64(p.startTime), 8);
  }

  /** Read `n` words of the buffer from `offset` into a fresh array. */
  method GetWords(buf: array<byte>, offset: nat, n: nat) returns (ws: seq<uint16>)
    requires offset + 2 * n <= buf.Length
    ensures ws == ReadWords(buf[..], offset, n)
  {
    var words := new uint16[n];
    var at := offset;
    for i := 0 to n
      invariant at == offset + 2 * i
      invariant words[..i] == ReadWords(buf[..], offset, i)
    {
      words[i] := ReadWord(buf[..], at);
      at := at + 2;
      assert words[..i + 1] == words[..i] + [words[i]];
    }
    assert words[..n] == words[..];
    ws := words[..];
  }

  method DeserializePacket(buf: array<byte>, maxHops: int) returns (r: Result<Packet, DecodeError>)
    ensures r == Decode(buf[..], maxHops)
  {
    if buf.Length < HEADER {
      return Failure(TooSmall);
    }
    var p := ReadHeader(buf[..]);
    if p.pathLength > Uint16(maxHops) {
      return Failure(InvalidPathLength);
    }
    var expectedSize := HEADER + p.pathLength as int * 4;
    if buf.Length < expectedSize {
      return Failure(TooSmall);
    }
    var path := GetWords(buf, HEADER, p.pathLength);
    var pathVer := GetWords(buf, HEADER + 2 * p.pathLength as int, p.pathLength);
    return Success(p.(path := path, pathVer := pathVer));
  }
}
