/** The length-prefixed messages that server and client exchange, and reading them from a byte stream. */
module WireFormat {

  newtype Byte = x: int | 0 <= x < 256

  const PROTO_FRAME := 0
  const PROTO_INIT := 1
  const PROTO_ACK := 3

  const WORD := 0x1_0000_0000
  const MAX_INT := 0x7FFF_FFFF

  // ----- words, most significant byte first -----

  function Word(n: nat): (w: seq<Byte>)
    requires n < WORD
    ensures |w| == 4
  {
    [(n / 0x100_0000) as Byte, (n / 0x1_0000 % 0x100) as Byte, (n / 0x100 % 0x100) as Byte, (n % 0x100) as Byte]
  }

  function Value(w: seq<Byte>): (n: nat)
    requires |w| == 4
    ensures n < WORD
  {
    w[0] as int * 0x100_0000 + w[1] as int * 0x1_0000 + w[2] as int * 0x100 + w[3] as int
  }

  lemma WordValue(n: nat)
    requires n < WORD
    ensures Value(Word(n)) == n
  {
    assert n == n / 0x100 * 0x100 + n % 0x100;
    assert n / 0x100 == n / 0x1_0000 * 0x100 + n / 0x100 % 0x100;
    assert n / 0x1_0000 == n / 0x100_0000 * 0x100 + n / 0x1_0000 % 0x100;
  }

  /** How a word reads into a signed 32-bit integer. */
  function Signed(n: nat): int
    requires n < WORD
  {
    if n <= MAX_INT then n else n - WORD
  }

  function Min(a: int, b: int): int { if a < b then a else b }

  // ----- packets -----

  datatype Packet =
    | Frame(serial: nat, args: seq<seq<Byte>>)
    | Ack(serial: nat)
    | Unknown(code: nat, rest: seq<Byte>)

  function Opcode(p: Packet): nat {
    match p
    case Frame(_, _) => PROTO_FRAME
    case Ack(_) => PROTO_ACK
    case Unknown(code, _) => code
  }

  function Concat(parts: seq<seq<Byte>>): seq<Byte> {
    if parts == [] then [] else Concat(parts[..|parts| - 1]) + parts[|parts| - 1]
  }

  lemma {:induction false} ConcatBoth(a: seq<seq<Byte>>, b: seq<seq<Byte>>)
    ensures Concat(a + b) == Concat(a) + Concat(b)
  {
    if b == [] {
      assert a + b == a;
    } else {
      ConcatBoth(a, b[..|b| - 1]);
      assert (a + b)[..|a + b| - 1] == a + b[..|b| - 1];
    }
  }

  /** Fields fit their words, and the whole fits a byte array. */
  predicate Sendable(p: Packet) {
    match p
    case Frame(serial, args) => serial < WORD && |args| < WORD && |Concat(args)| + 16 <= MAX_INT
    case Ack(serial) => serial < WORD
    case Unknown(code, rest) => code < WORD && |rest| + 8 <= MAX_INT
  }

  function Body(p: Packet): seq<Byte>
    requires Sendable(p)
  {
    match p
    case Frame(serial, args) => Word(serial) + Word(|args|) + Concat(args)
    case Ack(serial) => Word(serial)
    case Unknown(_, rest) => rest
  }

  /** The length counts what follows it. */
  function Encode(p: Packet): (bytes: seq<Byte>)
    requires Sendable(p)
    ensures |bytes| == |Body(p)| + 8
  {
    Word(|Body(p)| + 4) + Word(Opcode(p)) + Body(p)
  }

  predicate AllSendable(ps: seq<Packet>) { forall i | 0 <= i < |ps| :: Sendable(ps[i]) }

  function Encodings(ps: seq<Packet>): seq<seq<Byte>>
    requires AllSendable(ps)
  {
    seq(|ps|, i requires 0 <= i < |ps| => Encode(ps[i]))
  }

  function Stream(ps: seq<Packet>): seq<Byte>
    requires AllSendable(ps)
  {
    Concat(Encodings(ps))
  }

  lemma StreamBoth(a: seq<Packet>, b: seq<Packet>)
    requires AllSendable(a) && AllSendable(b)
    ensures AllSendable(a + b) && Stream(a + b) == Stream(a) + Stream(b)
  {
    EncodingsBoth(a, b);
    ConcatBoth(Encodings(a), Encodings(b));
  }

  lemma EncodingsBoth(a: seq<Packet>, b: seq<Packet>)
    requires AllSendable(a) && AllSendable(b)
    ensures AllSendable(a + b) && Encodings(a + b) == Encodings(a) + Encodings(b)
  {
  }

  lemma StreamOne(p: Packet)
    requires Sendable(p)
    ensures Stream([p]) == Encode(p)
  {
    assert Encodings([p]) == [Encode(p)];
    assert Concat([Encode(p)][..0]) == [];
  }

  lemma StreamFirst(ps: seq<Packet>)
    requires AllSendable(ps) && ps != []
    ensures Sendable(ps[0]) && AllSendable(ps[1..]) && Stream(ps) == Encode(ps[0]) + Stream(ps[1..])
  {
    assert ps == [ps[0]] + ps[1..];
    StreamOne(ps[0]);
    StreamBoth([ps[0]], ps[1..]);
  }

  // ----- reading a stream as it arrives -----

  /** What has arrived of the packet being waited for: its length may have been taken off the buffer already. */
  function Pending(blockSize: int, buffer: seq<Byte>): seq<Byte>
    requires 0 <= blockSize <= MAX_INT
  {
    if blockSize == 0 then buffer else Word(blockSize) + buffer
  }

  /** Of what was received, the packets `done` have been handled; the rest is pending, and begins `future`. */
  ghost predicate Reading(done: seq<Packet>, future: seq<Packet>, received: seq<Byte>, blockSize: int, buffer: seq<Byte>) {
    && AllSendable(done) && AllSendable(future) && 0 <= blockSize <= MAX_INT
    && received == Stream(done) + Pending(blockSize, buffer)
    && Pending(blockSize, buffer) <= Stream(future)
  }

  /** Too little is pending to go on. */
  predicate Waiting(blockSize: int, buffer: seq<Byte>) {
    if blockSize == 0 then |buffer| < 4 else |buffer| < blockSize
  }

  lemma LengthFirst(p: Packet)
    requires Sendable(p)
    ensures Encode(p)[..4] == Word(|Body(p)| + 4) && Value(Encode(p)[..4]) == |Body(p)| + 4
    ensures Encode(p)[4..] == Word(Opcode(p)) + Body(p)
  {
    WordValue(|Body(p)| + 4);
  }

  /** A length just read is that of the next packet. */
  lemma LengthRead(future: seq<Packet>, buffer: seq<Byte>)
    requires AllSendable(future) && buffer <= Stream(future) && |buffer| >= 4
    ensures future != [] && Signed(Value(buffer[..4])) == Value(buffer[..4]) == |Body(future[0])| + 4 <= MAX_INT
    ensures Pending(|Body(future[0])| + 4, buffer[4..]) == buffer
  {
    StreamFirst(future);
    LengthFirst(future[0]);
    assert buffer[..4] == Encode(future[0])[..4];
  }

  /** With its length read and enough bytes in the buffer, the next packet is at the front of it. */
  lemma PacketArrived(future: seq<Packet>, blockSize: int, buffer: seq<Byte>)
    requires AllSendable(future) && 0 < blockSize <= MAX_INT && |buffer| >= blockSize
    requires Pending(blockSize, buffer) <= Stream(future)
    ensures future != [] && blockSize == |Body(future[0])| + 4 && AllSendable(future[1..])
    ensures buffer[..blockSize] == Word(Opcode(future[0])) + Body(future[0])
    ensures buffer[blockSize..] <= Stream(future[1..])
  {
    var pending := Pending(blockSize, buffer);
    StreamFirst(future);
    LengthFirst(future[0]);
    assert pending[..4] == Word(blockSize) == Encode(future[0])[..4];
    WordValue(blockSize);
    var n := |Encode(future[0])|;
    assert pending[..n] == Encode(future[0]);
    assert buffer[..blockSize] == pending[4..n];
    assert buffer[blockSize..] == pending[n..];
  }

  /** While waiting, less than one packet is pending. */
  lemma WaitingIsIncomplete(future: seq<Packet>, blockSize: int, buffer: seq<Byte>)
    requires AllSendable(future) && 0 <= blockSize <= MAX_INT && Pending(blockSize, buffer) <= Stream(future)
    requires Waiting(blockSize, buffer)
    ensures future == [] ==> Pending(blockSize, buffer) == []
    ensures future != [] ==> |Pending(blockSize, buffer)| < |Encode(future[0])|
  {
    if future != [] && blockSize != 0 {
      LengthRead(future, Pending(blockSize, buffer));
      WordValue(blockSize);
      assert Pending(blockSize, buffer)[..4] == Word(blockSize);
    }
  }

  /** One packet more is done. */
  lemma ReadOn(done: seq<Packet>, future: seq<Packet>, received: seq<Byte>, blockSize: int, buffer: seq<Byte>)
    requires Reading(done, future, received, blockSize, buffer) && 0 < blockSize <= |buffer|
    ensures future != [] && Reading(done + [future[0]], future[1..], received, 0, buffer[blockSize..])
    ensures Sendable(future[0]) && blockSize == |Body(future[0])| + 4
    ensures buffer == Word(Opcode(future[0])) + Body(future[0]) + buffer[blockSize..]
  {
    PacketArrived(future, blockSize, buffer);
    assert buffer == buffer[..blockSize] + buffer[blockSize..];
    StreamOne(future[0]);
    StreamBoth(done, [future[0]]);
    PendingSplits(future[0], blockSize, buffer);
    Regroup(Stream(done), Encode(future[0]), buffer[blockSize..]);
  }

  lemma PendingSplits(p: Packet, blockSize: int, buffer: seq<Byte>)
    requires Sendable(p) && 0 < blockSize <= |buffer| && blockSize == |Body(p)| + 4
    requires buffer[..blockSize] == Word(Opcode(p)) + Body(p)
    ensures Pending(blockSize, buffer) == Encode(p) + buffer[blockSize..]
  {
    assert buffer == buffer[..blockSize] + buffer[blockSize..];
    Regroup(Word(blockSize), buffer[..blockSize], buffer[blockSize..]);
    Regroup(Word(blockSize), Word(Opcode(p)), Body(p));
  }

  lemma Regroup(a: seq<Byte>, b: seq<Byte>, c: seq<Byte>)
    ensures a + (b + c) == a + b + c
  {
  }

  lemma SplitFront(a: seq<Byte>, b: seq<Byte>, bytes: seq<Byte>)
    requires |a| + |b| <= |bytes| && bytes[..|a| + |b|] == a + b
    ensures bytes[..|a|] == a && bytes[|a|..] == b + bytes[|a| + |b|..]
  {
    assert bytes == bytes[..|a| + |b|] + bytes[|a| + |b|..];
    Regroup(a, b, bytes[|a| + |b|..]);
    assert bytes[..|a|] == (a + b)[..|a|];
  }

  /** The opcode comes first, then the body; of an acknowledgement, the serial. */
  lemma OpcodeFirst(p: Packet, bytes: seq<Byte>)
    requires Sendable(p) && |bytes| >= |Body(p)| + 4 && bytes[..|Body(p)| + 4] == Word(Opcode(p)) + Body(p)
    ensures Value(bytes[..4]) == Opcode(p) && bytes[4..] == Body(p) + bytes[|Body(p)| + 4..]
    ensures p.Ack? ==> |bytes| >= 8 && Value(bytes[4..][..4]) == p.serial && bytes[4..][4..] == bytes[8..]
  {
    WordValue(Opcode(p));
    SplitFront(Word(Opcode(p)), Body(p), bytes);
    if p.Ack? {
      WordValue(p.serial);
      SplitFront(Word(p.serial), [], bytes[4..]);
    }
  }

  lemma PrefixAfter(a: seq<Byte>, b: seq<Byte>, c: seq<Byte>)
    requires a + b <= a + c
    ensures b <= c
  {
    assert b == (a + b)[|a|..] && c == (a + c)[|a|..];
  }

  lemma MoreArrives(done: seq<Packet>, future: seq<Packet>, received: seq<Byte>, blockSize: int, buffer: seq<Byte>, chunk: seq<Byte>)
    requires Reading(done, future, received, blockSize, buffer) && AllSendable(done + future)
    requires received + chunk <= Stream(done + future)
    ensures Reading(done, future, received + chunk, blockSize, buffer + chunk)
  {
    StreamBoth(done, future);
    PendingGrows(blockSize, buffer, chunk);
    Regroup(Stream(done), Pending(blockSize, buffer), chunk);
    PrefixAfter(Stream(done), Pending(blockSize, buffer + chunk), Stream(future));
  }

  /** What comes after does not matter as long as it agrees with what was received. */
  lemma NewFuture(done: seq<Packet>, future: seq<Packet>, future': seq<Packet>, received: seq<Byte>, blockSize: int, buffer: seq<Byte>)
    requires Reading(done, future, received, blockSize, buffer) && AllSendable(done + future')
    requires received <= Stream(done + future')
    ensures Reading(done, future', received, blockSize, buffer)
  {
    assert future' == (done + future')[|done|..];
    forall i | 0 <= i < |future'| ensures Sendable(future'[i]) {
      assert future'[i] == (done + future')[|done| + i];
    }
    StreamBoth(done, future');
    PrefixAfter(Stream(done), Pending(blockSize, buffer), Stream(future'));
  }

  lemma TakeOneMore(before: seq<Packet>, future: seq<Packet>, n: nat)
    requires n < |future|
    ensures before + future[..n] + [future[n..][0]] == before + future[..n + 1] && future[n..][1..] == future[n + 1..]
    ensures future[..n] + [future[n]] == future[..n + 1]
  {
  }

  lemma PendingGrows(blockSize: int, buffer: seq<Byte>, chunk: seq<Byte>)
    requires 0 <= blockSize <= MAX_INT
    ensures Pending(blockSize, buffer + chunk) == Pending(blockSize, buffer) + chunk
  {
    if blockSize != 0 { Regroup(Word(blockSize), buffer, chunk); }
  }

  /**
   * Chunk independence: the packets handled by the time a reader waits depend on
   * the bytes that have arrived, not on how they were split into arrivals.
   */
  lemma ChunksAgree(done: seq<Packet>, future: seq<Packet>, blockSize: int, buffer: seq<Byte>,
                    done': seq<Packet>, future': seq<Packet>, blockSize': int, buffer': seq<Byte>, received: seq<Byte>)
    requires Reading(done, future, received, blockSize, buffer) && Waiting(blockSize, buffer)
    requires Reading(done', future', received, blockSize', buffer') && Waiting(blockSize', buffer')
    requires done + future == done' + future'
    ensures done == done' && future == future' && Pending(blockSize, buffer) == Pending(blockSize', buffer')
  {
    NoneIsBehind(done, future, blockSize, buffer, done', future', received);
    NoneIsBehind(done', future', blockSize', buffer', done, future, received);
    assert done == (done + future)[..|done|] && done' == (done' + future')[..|done'|];
    assert future == (done + future)[|done|..] && future' == (done' + future')[|done'|..];
  }

  /** A waiting reader has handled every packet that has arrived in full. */
  lemma NoneIsBehind(done: seq<Packet>, future: seq<Packet>, blockSize: int, buffer: seq<Byte>,
                     all: seq<Packet>, more: seq<Packet>, received: seq<Byte>)
    requires Reading(done, future, received, blockSize, buffer) && Waiting(blockSize, buffer)
    requires AllSendable(all) && Stream(all) <= received && done + future == all + more
    ensures |all| <= |done|
  {
    if |done| < |all| {
      var missed := all[|done|..];
      assert all == (all + more)[..|all|] && done == (done + future)[..|done|];
      assert all == done + missed && missed[0] == future[0];
      StreamBoth(done, missed);
      StreamFirst(missed);
      PrefixAfter(Stream(done), Stream(missed), Pending(blockSize, buffer));
      WaitingIsIncomplete(future, blockSize, buffer);
    }
  }
}
