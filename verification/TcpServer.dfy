/** The server end of a TCP connection between pipelines: frames are queued, written as the socket takes them, and acknowledged. */
module TcpServer {
  import opened WireFormat

  /** Writes a frame, with room for its length at the front; the length goes in last. */
  method EncodeFrame(frameNumber: nat, frameData: seq<seq<Byte>>) returns (block: seq<Byte>)
    requires Sendable(Frame(frameNumber, frameData))
    ensures block == Encode(Frame(frameNumber, frameData))
  {
    block := Word(0) + Word(PROTO_FRAME) + Word(frameNumber) + Word(|frameData|);
    ghost var header := block;
    var i := 0;
    assert frameData[..0] == [] && Concat(frameData[..0]) == [];
    while i < |frameData|
      invariant i <= |frameData| && block == header + Concat(frameData[..i])
    {
      assert frameData[..i + 1][..i] == frameData[..i];
      block := block + frameData[i];
      i := i + 1;
    }
    assert frameData[..i] == frameData;
    LengthPatched(frameNumber, frameData);
    block := Word(|block| - 4) + block[4..];
  }

  /** Putting the length in last makes the block the encoding of the frame. */
  lemma LengthPatched(frameNumber: nat, frameData: seq<seq<Byte>>)
    requires Sendable(Frame(frameNumber, frameData))
    ensures var block := Word(0) + Word(PROTO_FRAME) + Word(frameNumber) + Word(|frameData|) + Concat(frameData);
            |block| >= 4 && Word(|block| - 4) + block[4..] == Encode(Frame(frameNumber, frameData))
  {
    WithoutFirst(Word(0), Word(PROTO_FRAME), Word(frameNumber), Word(|frameData|), Concat(frameData));
    var code, body := Word(PROTO_FRAME), Word(frameNumber) + Word(|frameData|) + Concat(frameData);
    Regroup(Word(|body| + 4), code, body);
  }

  lemma WithoutFirst(a: seq<Byte>, b: seq<Byte>, c: seq<Byte>, d: seq<Byte>, e: seq<Byte>)
    ensures (a + b + c + d + e)[|a|..] == b + (c + d + e)
  {
    assert a + b + c + d + e == a + (b + (c + d + e));
  }

  datatype QueuedFrame = QueuedFrame(serial: nat, bytes: seq<Byte>, sent: nat)

  datatype SocketState = NoSocket | Unconnected | Connected

  function Bytes(fs: seq<QueuedFrame>): seq<seq<Byte>> { seq(|fs|, i requires 0 <= i < |fs| => fs[i].bytes) }

  function Serials(fs: seq<QueuedFrame>): seq<nat> { seq(|fs|, i requires 0 <= i < |fs| => fs[i].serial) }

  /** What is left to write, the frame at the front of the queue counting for what has not gone yet. */
  function Unsent(queue: seq<QueuedFrame>): seq<Byte> {
    if queue == [] then [] else Rest(queue[0]) + Concat(Bytes(queue[1..]))
  }

  function Rest(f: QueuedFrame): seq<Byte> { if f.sent <= |f.bytes| then f.bytes[f.sent..] else [] }

  function Gone(f: QueuedFrame): seq<Byte> { if f.sent <= |f.bytes| then f.bytes[..f.sent] else [] }

  /**
   * The queue is the frames from `whole` on, of which only the first may have
   * been written in part.
   */
  ghost predicate Queued(kept: seq<QueuedFrame>, whole: nat, queue: seq<QueuedFrame>) {
    && |kept| == whole + |queue|
    && (forall i | 0 <= i < |queue| :: queue[i] == kept[whole + i].(sent := queue[i].sent))
    && (forall i | 1 <= i < |queue| :: queue[i].sent == 0)
    && (queue != [] ==> queue[0].sent == 0 || queue[0].sent < |queue[0].bytes|)
  }

  /** The socket has taken the frames before `whole`, in order, and what has gone of the next. */
  ghost predicate Lossless(kept: seq<QueuedFrame>, whole: nat, queue: seq<QueuedFrame>, accepted: seq<Byte>) {
    && whole <= |kept|
    && accepted == Concat(Bytes(kept[..whole])) + if queue == [] then [] else Gone(queue[0])
  }

  // ----- the socket takes some bytes -----

  lemma BytesOneMore(kept: seq<QueuedFrame>, whole: nat)
    requires whole < |kept|
    ensures Concat(Bytes(kept[..whole + 1])) == Concat(Bytes(kept[..whole])) + kept[whole].bytes
  {
    assert kept[..whole + 1] == kept[..whole] + [kept[whole]];
    assert Bytes(kept[..whole + 1]) == Bytes(kept[..whole]) + [kept[whole].bytes];
    assert Bytes(kept[..whole + 1])[..whole] == Bytes(kept[..whole]);
  }

  /** All of the first frame has gone. */
  lemma FrameGone(kept: seq<QueuedFrame>, whole: nat, queue: seq<QueuedFrame>, accepted: seq<Byte>)
    requires Queued(kept, whole, queue) && queue != []
    ensures Queued(kept, whole + 1, queue[1..])
    ensures Lossless(kept, whole, queue, accepted) ==> Lossless(kept, whole + 1, queue[1..], accepted + Rest(queue[0]))
    ensures Serials(kept[..whole + 1]) == Serials(kept[..whole]) + [queue[0].serial]
  {
    BytesOneMore(kept, whole);
    assert queue[0] == kept[whole].(sent := queue[0].sent);
    assert Gone(queue[0]) + Rest(queue[0]) == queue[0].bytes;
    if Lossless(kept, whole, queue, accepted) {
      Regroup(Concat(Bytes(kept[..whole])), Gone(queue[0]), Rest(queue[0]));
    }
    forall i | 0 <= i < |queue[1..]| ensures queue[1..][i] == kept[whole + 1 + i].(sent := 0) {
      assert queue[i + 1] == kept[whole + (i + 1)].(sent := queue[i + 1].sent);
    }
  }

  /** Some of the first frame has gone. */
  lemma FramePartGone(kept: seq<QueuedFrame>, whole: nat, queue: seq<QueuedFrame>, accepted: seq<Byte>, n: nat)
    requires Queued(kept, whole, queue) && queue != [] && n < |Rest(queue[0])|
    ensures Queued(kept, whole, queue[0 := queue[0].(sent := queue[0].sent + n)])
    ensures Lossless(kept, whole, queue, accepted) ==>
              Lossless(kept, whole, queue[0 := queue[0].(sent := queue[0].sent + n)], accepted + Rest(queue[0])[..n])
  {
    var f := queue[0];
    assert f.bytes[..f.sent + n] == f.bytes[..f.sent] + f.bytes[f.sent..][..n];
    if Lossless(kept, whole, queue, accepted) {
      Regroup(Concat(Bytes(kept[..whole])), Gone(f), Rest(f)[..n]);
    }
  }

  /** What the socket took and what is still to write make up the frames kept, in order: nothing is lost, doubled or mixed. */
  lemma NothingLost(kept: seq<QueuedFrame>, whole: nat, queue: seq<QueuedFrame>, accepted: seq<Byte>)
    requires Queued(kept, whole, queue) && Lossless(kept, whole, queue, accepted)
    ensures accepted + Unsent(queue) == Concat(Bytes(kept))
    ensures accepted <= Concat(Bytes(kept))
  {
    if queue == [] {
      assert kept[..whole] == kept;
    } else {
      BytesOneMore(kept, whole);
      var f := queue[0];
      assert f == kept[whole].(sent := f.sent);
      assert Gone(f) + Rest(f) == f.bytes;
      assert Bytes(queue[1..]) == Bytes(kept[whole + 1..]) by {
        forall i | 0 <= i < |queue| - 1 ensures queue[1..][i].bytes == kept[whole + 1..][i].bytes {
          assert queue[i + 1] == kept[whole + (i + 1)].(sent := queue[i + 1].sent);
        }
      }
      assert kept == kept[..whole + 1] + kept[whole + 1..];
      assert Bytes(kept) == Bytes(kept[..whole + 1]) + Bytes(kept[whole + 1..]);
      ConcatBoth(Bytes(kept[..whole + 1]), Bytes(kept[whole + 1..]));
      Regroup(Concat(Bytes(kept[..whole])), Gone(f), Rest(f));
      Regroup(accepted, Rest(f), Concat(Bytes(queue[1..])));
    }
  }

  lemma FrameQueued(kept: seq<QueuedFrame>, whole: nat, queue: seq<QueuedFrame>, accepted: seq<Byte>, f: QueuedFrame)
    requires Queued(kept, whole, queue) && f.sent == 0
    ensures Queued(kept + [f], whole, queue + [f])
    ensures Lossless(kept, whole, queue, accepted) ==> Lossless(kept + [f], whole, queue + [f], accepted)
    ensures Serials((kept + [f])[..whole]) == Serials(kept[..whole])
  {
    assert (kept + [f])[..whole] == kept[..whole];
  }

  /** The oldest queued frame is dropped: harmless for a whole stream exactly when none of it has gone. */
  lemma FrameDropped(kept: seq<QueuedFrame>, whole: nat, queue: seq<QueuedFrame>, accepted: seq<Byte>,
                     without: seq<QueuedFrame>, rest: seq<QueuedFrame>)
    requires Queued(kept, whole, queue) && queue != [] && rest == queue[1..]
    requires without == kept[..whole] + kept[whole + 1..]
    ensures Queued(without, whole, rest) && without[..whole] == kept[..whole]
    ensures Lossless(kept, whole, queue, accepted) ==> (Lossless(without, whole, rest, accepted) <==> queue[0].sent == 0)
  {
    assert without[..whole] == kept[..whole];
    forall i | 0 <= i < |rest| ensures rest[i] == without[whole + i].(sent := 0) {
      assert queue[i + 1] == kept[whole + (i + 1)].(sent := queue[i + 1].sent);
    }
  }

  // ----- acknowledgements -----

  /** Serials awaiting an acknowledgement, and how many acknowledgements were ignored. */
  datatype Flight = Flight(serials: seq<nat>, ignored: nat)

  function Acknowledge(flight: Flight, serial: nat): Flight {
    if flight.serials != [] && flight.serials[0] == serial then Flight(flight.serials[1..], flight.ignored)
    else Flight(flight.serials, flight.ignored + 1)
  }

  function AcknowledgeAll(flight: Flight, ps: seq<Packet>): Flight {
    if ps == [] then flight
    else
      var before := AcknowledgeAll(flight, ps[..|ps| - 1]);
      if ps[|ps| - 1].Ack? then Acknowledge(before, ps[|ps| - 1].serial) else before
  }

  lemma AcknowledgeOneMore(flight: Flight, ps: seq<Packet>, p: Packet)
    ensures AcknowledgeAll(flight, ps + [p]) ==
              if p.Ack? then Acknowledge(AcknowledgeAll(flight, ps), p.serial) else AcknowledgeAll(flight, ps)
  {
    assert (ps + [p])[..|ps|] == ps;
  }

  /** Without an acknowledgement the flight is as it was, and when none is in flight that stays so. */
  lemma {:induction false} FlightUntouched(flight: Flight, ps: seq<Packet>)
    ensures (forall i | 0 <= i < |ps| :: !ps[i].Ack?) ==> AcknowledgeAll(flight, ps) == flight
    ensures flight.serials == [] ==> AcknowledgeAll(flight, ps).serials == []
  {
    if ps != [] { FlightUntouched(flight, ps[..|ps| - 1]); }
  }

  /** Acknowledgements that come in the order of the serials in flight take them away, and none is ignored. */
  lemma {:induction false} AcknowledgedInOrder(flight: Flight, acks: seq<Packet>)
    requires |acks| <= |flight.serials|
    requires forall i | 0 <= i < |acks| :: acks[i] == Ack(flight.serials[i])
    ensures AcknowledgeAll(flight, acks) == Flight(flight.serials[|acks|..], flight.ignored)
  {
    if acks != [] {
      AcknowledgedInOrder(flight, acks[..|acks| - 1]);
    }
  }

  /** Packets the server consumes whole: acknowledgements, and anything it skips. */
  predicate Understood(p: Packet) { Sendable(p) && (Opcode(p) == PROTO_ACK ==> p.Ack?) }

  predicate AllUnderstood(ps: seq<Packet>) { forall i | 0 <= i < |ps| :: Understood(ps[i]) }

  class ServerConnection {
    const lossless: bool
    const maxFramesInQueue: nat
    const maxFramesInFlight: nat
    var socket: SocketState
    var frameQueue: seq<QueuedFrame>
    /** Serials of frames written and not acknowledged. */
    var frameNumbersInFlight: seq<nat>
    var waiting: bool
    /** Bytes received and not read; the length of the message being waited for, if read. */
    var buffer: seq<Byte>
    var blockSize: int
    /** All the bytes the socket has taken. */
    var accepted: seq<Byte>
    /** Frames queued and not dropped; how many are written whole; whether one was dropped that was written in part. */
    ghost var kept: seq<QueuedFrame>
    ghost var whole: nat
    ghost var torn: bool
    /** How often the socket has refused a write. */
    ghost var refusals: nat
    /** Acknowledgements matched and ignored; all bytes received, and the packets read from them. */
    ghost var acked: nat
    ghost var ignored: nat
    ghost var received: seq<Byte>
    ghost var done: seq<Packet>

    constructor (lossless: bool, maxFramesInQueue: nat, maxFramesInFlight: nat)
      ensures Valid() && Reads([]) && this.lossless == lossless
      ensures kept == [] && received == [] && done == [] && ignored == 0 && acked == 0 && !torn && socket == NoSocket
      ensures buffer == [] && blockSize == 0 && accepted == [] && whole == 0
    {
      this.lossless, this.maxFramesInQueue, this.maxFramesInFlight := lossless, maxFramesInQueue, maxFramesInFlight;
      socket, frameQueue, frameNumbersInFlight, waiting, buffer, blockSize, accepted := NoSocket, [], [], false, [], 0, [];
      kept, whole, torn, refusals, acked, ignored, received, done := [], 0, false, 0, 0, 0, [], [];
      new;
      assert Bytes([]) == [] && Encodings([]) == [];
    }

    /** The stream is whole, and what is in flight is what was written whole and not acknowledged. */
    ghost predicate Valid()
      reads this
    {
      && Queued(kept, whole, frameQueue) && (lossless ==> !torn)
      && (!torn ==> Lossless(kept, whole, frameQueue, accepted))
      && acked <= whole && frameNumbersInFlight == Serials(kept[..whole])[acked..]
      && |frameNumbersInFlight| <= maxFramesInFlight
    }

    /** Everything received is accounted for, given that `future` is what comes after the packets done. */
    ghost predicate Reads(future: seq<Packet>)
      reads this
    {
      Accounts(future, blockSize)
    }

    ghost predicate Accounts(future: seq<Packet>, size: int)
      reads this
    {
      Reading(done, future, received, size, buffer) && AllUnderstood(future)
    }

    /** The socket is that of a client that has connected. */
    method Start()
      requires socket == NoSocket
      modifies this`socket
      ensures socket == Connected
    {
      socket := Connected;
    }

    // ----- sending -----

    /** The socket takes all, some or, answering -1, none of the data. */
    method Write(data: seq<Byte>) returns (n: int)
      modifies this`accepted, this`refusals
      ensures -1 <= n <= |data| && (n == 0 ==> data == [])
      ensures refusals == old(refusals) + if n == -1 then 1 else 0
      ensures accepted == old(accepted) + if n == -1 then [] else data[..n]
    {
      n :| -1 <= n <= |data| && (n == 0 ==> data == []);
      if n != -1 { accepted := accepted + data[..n]; } else { refusals := refusals + 1; }
    }

    /** Writes what is left of the first frame; false when the socket refuses. */
    method WriteFirst() returns (overflow: bool)
      requires Valid() && frameQueue != [] && |frameNumbersInFlight| < maxFramesInFlight
      modifies this`accepted, this`refusals, this`frameQueue, this`frameNumbersInFlight, this`whole
      ensures Valid() && old(accepted) <= accepted && old(whole) <= whole
      ensures refusals == old(refusals) + if overflow then 1 else 0
      ensures overflow ==> frameQueue == old(frameQueue)
      ensures !overflow ==> (|frameQueue| < |old(frameQueue)|
                || (|frameQueue| == |old(frameQueue)| && |Rest(frameQueue[0])| < |old(Rest(frameQueue[0]))|))
    {
      overflow := false;
      var f := frameQueue[0];
      if f.sent == 0 {
        assert Rest(f) == f.bytes;
        var bytesSent := Write(f.bytes);
        if bytesSent < |f.bytes| {
          if bytesSent != -1 {
            FirstIsPartlyWritten(old(accepted), bytesSent);
          } else {
            overflow := true;
          }
        } else {
          FirstIsWritten(old(accepted));
        }
      } else {
        var len := |f.bytes| - f.sent;
        var bytesSent := Write(f.bytes[f.sent..]);
        if bytesSent < len {
          if bytesSent != -1 {
            FirstIsPartlyWritten(old(accepted), bytesSent);
          } else {
            overflow := true;
          }
        } else {
          FirstIsWritten(old(accepted));
        }
      }
    }

    /** More of the first frame has gone, but not all. */
    method FirstIsPartlyWritten(ghost before: seq<Byte>, n: nat)
      requires Queued(kept, whole, frameQueue) && frameQueue != [] && (lossless ==> !torn) && 0 < n < |Rest(frameQueue[0])|
      requires !torn ==> Lossless(kept, whole, frameQueue, before) && accepted == before + Rest(frameQueue[0])[..n]
      requires acked <= whole && frameNumbersInFlight == Serials(kept[..whole])[acked..]
      requires |frameNumbersInFlight| < maxFramesInFlight
      modifies this`frameQueue
      ensures Valid() && |frameQueue| == |old(frameQueue)| && |Rest(frameQueue[0])| < |old(Rest(frameQueue[0]))|
    {
      FramePartGone(kept, whole, frameQueue, before, n);
      frameQueue := frameQueue[0 := frameQueue[0].(sent := frameQueue[0].sent + n)];
    }

    /** The first frame has gone whole: it leaves the queue and is in flight. */
    method FirstIsWritten(ghost before: seq<Byte>)
      requires Queued(kept, whole, frameQueue) && frameQueue != [] && (lossless ==> !torn)
      requires !torn ==> Lossless(kept, whole, frameQueue, before) && accepted == before + Rest(frameQueue[0])
      requires acked <= whole && frameNumbersInFlight == Serials(kept[..whole])[acked..]
      requires |frameNumbersInFlight| < maxFramesInFlight
      modifies this`frameQueue, this`frameNumbersInFlight, this`whole
      ensures Valid() && frameQueue == old(frameQueue)[1..] && whole == old(whole) + 1
    {
      FrameGone(kept, whole, frameQueue, before);
      frameNumbersInFlight := frameNumbersInFlight + [frameQueue[0].serial];
      frameQueue := frameQueue[1..];
      whole := whole + 1;
    }

    /** Writes frames until enough are in flight, none is queued, or the socket refuses. */
    method SendData()
      requires Valid()
      modifies this`accepted, this`refusals, this`frameQueue, this`frameNumbersInFlight, this`whole, this`waiting
      ensures Valid() && old(accepted) <= accepted && old(whole) <= whole && |frameQueue| <= |old(frameQueue)|
      ensures waiting <==> old(waiting) || refusals != old(refusals)
      ensures socket != Connected || old(waiting) ==> accepted == old(accepted) && frameQueue == old(frameQueue) && waiting == old(waiting)
      ensures socket == Connected && !waiting ==> frameQueue == [] || |frameNumbersInFlight| == maxFramesInFlight
    {
      if socket != Connected || waiting { return; }
      var overflow := false;
      while !(|frameNumbersInFlight| >= maxFramesInFlight || frameQueue == [] || overflow)
        invariant Valid() && old(accepted) <= accepted && old(whole) <= whole
        invariant |frameQueue| <= |old(frameQueue)| && waiting == overflow == (refusals != old(refusals))
        invariant old(refusals) <= refusals
        decreases |frameQueue|, if frameQueue == [] then 0 else |Rest(frameQueue[0])|, !overflow
      {
        overflow := WriteFirst();
        if overflow { waiting := true; }
      }
    }

    /**
     * Queues a frame, sends what it can, and when the queue is still too long
     * either asks the sender to wait (lossless) or drops the oldest frame.
     */
    method QueueFrame(frameNumber: nat, frameData: seq<Byte>)
      requires Valid()
      modifies this`accepted, this`refusals, this`frameQueue, this`frameNumbersInFlight, this`whole, this`waiting
      modifies this`kept, this`torn
      ensures Valid() && old(accepted) <= accepted && old(whole) <= whole
      ensures socket == NoSocket ==> kept == old(kept) && accepted == old(accepted) && frameQueue == old(frameQueue)
      ensures socket != NoSocket && lossless ==> kept == old(kept) + [QueuedFrame(frameNumber, frameData, 0)]
      ensures socket != NoSocket ==>
                (waiting <==> old(waiting) || refusals != old(refusals) || (lossless && |frameQueue| > maxFramesInQueue))
      ensures socket == Connected && !old(waiting) && refusals == old(refusals) ==>
                frameQueue == [] || |frameNumbersInFlight| == maxFramesInFlight
      ensures old(waiting) || |old(frameNumbersInFlight)| == maxFramesInFlight ==> accepted == old(accepted)
      ensures socket != NoSocket && !lossless ==>
                var all := old(kept) + [QueuedFrame(frameNumber, frameData, 0)];
                || (kept == all && |frameQueue| <= maxFramesInQueue)
                || (|frameQueue| >= maxFramesInQueue && whole < |all| && kept == all[..whole] + all[whole + 1..])
    {
      if socket == NoSocket { return; }
      QueueAndSend(QueuedFrame(frameNumber, frameData, 0));
      Trim();
    }

    method QueueAndSend(f: QueuedFrame)
      requires Valid() && f.sent == 0
      modifies this`accepted, this`refusals, this`frameQueue, this`frameNumbersInFlight, this`whole, this`waiting, this`kept
      ensures Valid() && old(accepted) <= accepted && old(whole) <= whole && kept == old(kept) + [f]
      ensures waiting <==> old(waiting) || refusals != old(refusals)
      ensures socket == Connected && !waiting ==> frameQueue == [] || |frameNumbersInFlight| == maxFramesInFlight
      ensures old(waiting) || |old(frameNumbersInFlight)| == maxFramesInFlight ==> accepted == old(accepted)
    {
      Append(f);
      if |frameNumbersInFlight| < maxFramesInFlight {
        SendData();
      }
    }

    /** Too long a queue makes the sender wait, or loses its oldest frame. */
    method Trim()
      requires Valid()
      modifies this`waiting, this`frameQueue, this`kept, this`torn
      ensures Valid() && (waiting <==> old(waiting) || (lossless && |old(frameQueue)| > maxFramesInQueue))
      ensures lossless || |old(frameQueue)| <= maxFramesInQueue ==> frameQueue == old(frameQueue) && kept == old(kept)
      ensures !lossless && |old(frameQueue)| > maxFramesInQueue ==>
                |frameQueue| >= maxFramesInQueue && whole < |old(kept)| && kept == old(kept)[..whole] + old(kept)[whole + 1..]
    {
      if |frameQueue| > maxFramesInQueue {
        if lossless {
          waiting := true;
        } else {
          DropOldest();
        }
      }
    }

    method Append(f: QueuedFrame)
      requires Valid() && f.sent == 0
      modifies this`frameQueue, this`kept
      ensures Valid() && frameQueue == old(frameQueue) + [f] && kept == old(kept) + [f]
    {
      FrameQueued(kept, whole, frameQueue, accepted, f);
      frameQueue := frameQueue + [f];
      kept := kept + [f];
    }

    method DropOldest()
      requires Valid() && !lossless && frameQueue != []
      modifies this`frameQueue, this`kept, this`torn
      ensures Valid() && frameQueue == old(frameQueue)[1..] && whole < |old(kept)|
      ensures kept == old(kept)[..whole] + old(kept)[whole + 1..]
      ensures torn <==> old(torn) || old(frameQueue)[0].sent != 0
    {
      ghost var without := kept[..whole] + kept[whole + 1..];
      var rest := frameQueue[1..];
      FrameDropped(kept, whole, frameQueue, accepted, without, rest);
      torn := torn || frameQueue[0].sent != 0;
      kept := without;
      frameQueue := rest;
    }

    // ----- acknowledgements -----

    /** Takes the serial out of flight if it is the one expected next; otherwise ignores it. */
    method AckFrame(serial: nat)
      requires Valid()
      modifies this`frameNumbersInFlight, this`waiting, this`acked, this`ignored
      ensures Valid()
      ensures Flight(frameNumbersInFlight, ignored) == Acknowledge(old(Flight(frameNumbersInFlight, ignored)), serial)
      ensures var expected := old(frameNumbersInFlight) != [] && old(frameNumbersInFlight)[0] == serial;
              && frameNumbersInFlight == (if expected then old(frameNumbersInFlight)[1..] else old(frameNumbersInFlight))
              && ignored == old(ignored) + if expected then 0 else 1
      ensures waiting == (old(waiting) && !(lossless && old(frameNumbersInFlight) != []))
    {
      if frameNumbersInFlight == [] {
        ignored := ignored + 1;
        return;
      }
      var expectedSerial := frameNumbersInFlight[0];
      if expectedSerial == serial {
        frameNumbersInFlight := frameNumbersInFlight[1..];
        acked := acked + 1;
      } else {
        ignored := ignored + 1;
      }
      if lossless && waiting { waiting := false; }
    }

    // ----- reading -----

    /** Reading past the end yields zero. */
    method ReadWord() returns (n: nat)
      modifies this`buffer
      ensures n < WORD && |buffer| <= |old(buffer)|
      ensures |old(buffer)| >= 4 ==> n == Value(old(buffer)[..4]) && buffer == old(buffer)[4..]
      ensures |old(buffer)| < 4 ==> n == 0 && buffer == []
    {
      if |buffer| < 4 {
        buffer := [];
        return 0;
      }
      n := Value(buffer[..4]);
      buffer := buffer[4..];
    }

    method Skip(len: int)
      modifies this`buffer
      ensures |buffer| <= |old(buffer)| && (0 <= len <= |old(buffer)| ==> buffer == old(buffer)[len..])
    {
      if len > 0 { buffer := buffer[Min(len, |buffer|)..]; }
    }

    /** Handles the message at the front of the buffer by its opcode. */
    method HandleMessage(ghost p: Packet, ghost rest: seq<Byte>)
      requires Valid()
      modifies this`buffer, this`frameNumbersInFlight, this`waiting, this`acked, this`ignored
      ensures Valid() && |buffer| <= |old(buffer)|
      ensures Understood(p) && old(buffer) == Word(Opcode(p)) + Body(p) + rest && blockSize == |Body(p)| + 4 ==>
                buffer == rest && Flight(frameNumbersInFlight, ignored) ==
                  if p.Ack? then Acknowledge(old(Flight(frameNumbersInFlight, ignored)), p.serial)
                  else old(Flight(frameNumbersInFlight, ignored))
      ensures waiting ==> old(waiting)
      ensures Understood(p) && old(buffer) == Word(Opcode(p)) + Body(p) + rest && blockSize == |Body(p)| + 4 ==>
                waiting == (old(waiting) && !(p.Ack? && lossless && old(frameNumbersInFlight) != []))
    {
      ghost var good := Understood(p) && buffer == Word(Opcode(p)) + Body(p) + rest && blockSize == |Body(p)| + 4;
      if good {
        var n := |Body(p)| + 4;
        assert buffer[..n] == Word(Opcode(p)) + Body(p) && buffer[n..] == rest;
        OpcodeFirst(p, buffer);
      }
      var opcode := ReadWord();
      if opcode == PROTO_ACK {
        var serial := ReadWord();
        AckFrame(serial);
      } else {
        assert good ==> buffer == Body(p) + rest && buffer[|Body(p)|..] == rest;
        Skip(blockSize - 4);
      }
    }

    /** One message of the loop: it is handled, and the length of the next is read if it is there. */
    method ReadMessage(ghost future: seq<Packet>) returns (data: bool)
      requires Valid()
      modifies this`buffer, this`blockSize, this`frameNumbersInFlight, this`waiting, this`acked, this`ignored, this`done
      ensures Valid() && |buffer| <= |old(buffer)| && (data ==> |buffer| < |old(buffer)|)
      ensures old(Reads(future)) && 0 < old(blockSize) <= |old(buffer)| ==>
                && future != [] && done == old(done) + [future[0]] && Reads(future[1..])
                && (if data then 0 < blockSize <= |buffer| else Waiting(blockSize, buffer))
                && Flight(frameNumbersInFlight, ignored) ==
                     if future[0].Ack? then Acknowledge(old(Flight(frameNumbersInFlight, ignored)), future[0].serial)
                     else old(Flight(frameNumbersInFlight, ignored))
      ensures waiting ==> old(waiting)
      ensures old(Reads(future)) && 0 < old(blockSize) <= |old(buffer)| ==>
                waiting == (old(waiting) && !(future[0].Ack? && lossless && old(frameNumbersInFlight) != []))
    {
      ghost var good := Reads(future) && 0 < blockSize <= |buffer|;
      HandleNext(future, good);
      data := NextLength(if good then future[1..] else [], good);
    }

    method HandleNext(ghost future: seq<Packet>, ghost good: bool)
      requires Valid() && (good ==> Reads(future) && 0 < blockSize <= |buffer|)
      modifies this`buffer, this`frameNumbersInFlight, this`waiting, this`acked, this`ignored, this`done
      ensures Valid() && |buffer| <= |old(buffer)|
      ensures good ==>
                && future != [] && done == old(done) + [future[0]] && Accounts(future[1..], 0)
                && Flight(frameNumbersInFlight, ignored) ==
                     if future[0].Ack? then Acknowledge(old(Flight(frameNumbersInFlight, ignored)), future[0].serial)
                     else old(Flight(frameNumbersInFlight, ignored))
      ensures waiting ==> old(waiting)
      ensures good ==> waiting == (old(waiting) && !(future[0].Ack? && lossless && old(frameNumbersInFlight) != []))
    {
      ghost var p, rest := Ack(0), [];
      if good {
        ReadOn(done, future, received, blockSize, buffer);
        p, rest := future[0], buffer[blockSize..];
      }
      HandleMessage(p, rest);
      if good { done := done + [p]; }
    }

    method NextLength(ghost future: seq<Packet>, ghost good: bool) returns (data: bool)
      requires good ==> Accounts(future, 0)
      modifies this`buffer, this`blockSize
      ensures |buffer| <= |old(buffer)| && (data ==> |buffer| < |old(buffer)|)
      ensures good ==> Reads(future) && if data then 0 < blockSize <= |buffer| else Waiting(blockSize, buffer)
    {
      data := true;
      if |buffer| >= 4 {
        if good { LengthRead(future, buffer); }
        var length := ReadWord();
        blockSize := Signed(length);
      } else {
        blockSize := 0;
        data := false;
      }
      if |buffer| < blockSize { data := false; }
    }

    /** The length of the message being waited for, if it is not known and has arrived. */
    method FirstLength(ghost future: seq<Packet>) returns (data: bool)
      modifies this`buffer, this`blockSize
      ensures old(Reads(future)) ==> Reads(future) && if data then 0 < blockSize <= |buffer| else Waiting(blockSize, buffer)
    {
      ghost var good := Reads(future);
      if blockSize == 0 {
        if |buffer| < 4 { return false; }
        if good { LengthRead(future, buffer); }
        var length := ReadWord();
        blockSize := Signed(length);
      }
      data := |buffer| >= blockSize;
    }

    /**
     * Runs when bytes have arrived. Whatever the bytes, it ends; if they continue
     * a stream of well-formed packets, every acknowledgement that is complete is
     * taken in order.
     */
    method ReadyRead(ghost future: seq<Packet>) returns (ghost n: nat)
      requires Valid()
      modifies this`buffer, this`blockSize, this`frameNumbersInFlight, this`waiting, this`acked, this`ignored, this`done
      ensures Valid()
      ensures old(Reads(future)) ==>
                && n <= |future| && done == old(done) + future[..n] && Reads(future[n..]) && Waiting(blockSize, buffer)
                && Flight(frameNumbersInFlight, ignored) == AcknowledgeAll(old(Flight(frameNumbersInFlight, ignored)), future[..n])
      ensures waiting ==> old(waiting)
      ensures old(Reads(future)) ==>
                waiting == (old(waiting) && !(lossless && old(frameNumbersInFlight) != [] && exists i :: 0 <= i < n && future[i].Ack?))
    {
      ghost var good := Reads(future);
      ghost var flight, before := Flight(frameNumbersInFlight, ignored), done;
      ghost var waited := waiting;
      n := 0;
      assert future[0..] == future && done + future[..0] == done;
      var data := FirstLength(future);
      while data
        invariant Valid()
        invariant good ==> HasRead(before, future, n, flight) && Released(waited, flight, future, n)
        invariant waiting ==> waited
        invariant good ==> if data then 0 < blockSize <= |buffer| else Waiting(blockSize, buffer)
        decreases |buffer|, data
      {
        data := ReadOneMore(before, future, n, flight, waited, good);
        n := n + 1;
      }
    }

    /** Since `before` was done, n more packets have been, and their acknowledgements taken. */
    ghost predicate HasRead(before: seq<Packet>, future: seq<Packet>, n: nat, flight: Flight)
      reads this
    {
      && n <= |future| && done == before + future[..n] && Reads(future[n..])
      && Flight(frameNumbersInFlight, ignored) == AcknowledgeAll(flight, future[..n])
    }

    /** A sender that waited still does, unless the link is lossless and an acknowledgement came while frames were in flight. */
    ghost predicate Released(waited: bool, flight: Flight, future: seq<Packet>, n: nat)
      requires n <= |future|
      reads this
    {
      waiting == (waited && !(lossless && flight.serials != [] && exists i :: 0 <= i < n && future[i].Ack?))
    }

    method ReadOneMore(ghost before: seq<Packet>, ghost future: seq<Packet>, ghost n: nat, ghost flight: Flight,
                       ghost waited: bool, ghost good: bool)
      returns (data: bool)
      requires Valid() && (good ==> HasRead(before, future, n, flight) && 0 < blockSize <= |buffer|)
      requires good ==> Released(waited, flight, future, n)
      modifies this`buffer, this`blockSize, this`frameNumbersInFlight, this`waiting, this`acked, this`ignored, this`done
      ensures Valid() && |buffer| <= |old(buffer)| && (data ==> |buffer| < |old(buffer)|)
      ensures good ==> HasRead(before, future, n + 1, flight) && Released(waited, flight, future, n + 1)
      ensures waiting ==> old(waiting)
      ensures good ==> if data then 0 < blockSize <= |buffer| else Waiting(blockSize, buffer)
    {
      data := ReadMessage(if good then future[n..] else []);
      if good {
        FlightUntouched(flight, future[..n]);
        TakeOneMore(before, future, n);
        AcknowledgeOneMore(flight, future[..n], future[n]);
      }
    }

    /** Bytes arrive at the socket. */
    method Receive(chunk: seq<Byte>, ghost future: seq<Packet>)
      modifies this`buffer, this`received
      ensures buffer == old(buffer) + chunk && received == old(received) + chunk
      ensures old(Reads(future)) && AllSendable(done + future) && received <= Stream(done + future) ==> Reads(future)
    {
      if Reads(future) && AllSendable(done + future) && received + chunk <= Stream(done + future) {
        MoreArrives(done, future, received, blockSize, buffer, chunk);
      }
      buffer := buffer + chunk;
      received := received + chunk;
    }
  }
}
