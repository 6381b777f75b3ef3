/** The client end of a TCP connection between pipelines: it reads frames as they arrive and acknowledges each. */
module TcpClient {
  import opened WireFormat

  /**
   * Reads one serialised value off the front of a byte string: how many bytes it
   * takes, and whether it is valid.
   */
  type Codec = seq<Byte> -> (nat, bool)

  /** A value the codec reads back whatever follows it. */
  ghost predicate Argument(codec: Codec, v: seq<Byte>) {
    forall rest :: codec(v + rest) == (|v|, true)
  }

  ghost predicate AllArguments(codec: Codec, args: seq<seq<Byte>>) {
    forall i | 0 <= i < |args| :: Argument(codec, args[i])
  }

  /** Packets the client consumes whole: frames with arguments, and anything it skips. */
  ghost predicate Understood(codec: Codec, p: Packet) {
    && Sendable(p)
    && match p
       case Frame(_, args) => args != [] && AllArguments(codec, args)
       case Ack(_) => true
       case Unknown(code, rest) => code != PROTO_FRAME && (code == PROTO_INIT ==> rest == [])
  }

  ghost predicate AllUnderstood(codec: Codec, ps: seq<Packet>) {
    forall i | 0 <= i < |ps| :: Understood(codec, ps[i])
  }

  /** The argument lists of the frames among ps, and the acknowledgements they call for. */
  function FramesOf(ps: seq<Packet>): seq<seq<seq<Byte>>> {
    if ps == [] then [] else
      FramesOf(ps[..|ps| - 1]) + if ps[|ps| - 1].Frame? then [ps[|ps| - 1].args] else []
  }

  function AcksOf(ps: seq<Packet>): (acks: seq<Packet>)
    ensures AllSendable(ps) ==> AllSendable(acks)
    ensures forall i | 0 <= i < |acks| :: acks[i].Ack?
  {
    if ps == [] then [] else
      AcksOf(ps[..|ps| - 1]) + if ps[|ps| - 1].Frame? then [Ack(ps[|ps| - 1].serial)] else []
  }

  lemma AcksOfOneMore(ps: seq<Packet>, p: Packet)
    ensures AcksOf(ps + [p]) == AcksOf(ps) + if p.Frame? then [Ack(p.serial)] else []
    ensures FramesOf(ps + [p]) == FramesOf(ps) + if p.Frame? then [p.args] else []
  {
    assert (ps + [p])[..|ps|] == ps;
  }

  lemma ConcatOneMore(args: seq<seq<Byte>>, i: nat)
    requires i < |args|
    ensures Concat(args[i..]) == args[i] + Concat(args[i + 1..])
  {
    assert args[i..] == [args[i]] + args[i + 1..];
    assert Concat([args[i]][..0]) == [];
    ConcatBoth([args[i]], args[i + 1..]);
  }

  class TCPClientProducer {
    const codec: Codec
    /** Bytes received and not read; the length of the message being waited for, if read; frames not produced yet. */
    var buffer: seq<Byte>
    var blockSize: int
    var frameList: seq<seq<seq<Byte>>>
    /** Bytes written to the socket. */
    var written: seq<Byte>
    /** All bytes received; the packets handled, and how many of their frames have been produced. */
    ghost var received: seq<Byte>
    ghost var done: seq<Packet>
    ghost var produced: nat

    constructor (codec: Codec)
      ensures this.codec == codec && Reads([]) && Waiting(blockSize, buffer)
      ensures received == [] && done == [] && produced == 0 && written == [] && buffer == [] && blockSize == 0 && frameList == []
    {
      this.codec := codec;
      buffer, blockSize, frameList, written := [], 0, [], [];
      received, done, produced := [], [], 0;
      new;
      assert Encodings([]) == [] && Stream([]) == [];
    }

    /** Everything received is accounted for, given that `future` is what comes after the packets done. */
    ghost predicate Accounts(future: seq<Packet>, size: int)
      reads this
    {
      Reading(done, future, received, size, buffer) && AllUnderstood(codec, future)
    }

    /** Every frame done was acknowledged once, in order, and is produced or waits to be. */
    ghost predicate Delivers()
      reads this
    {
      && AllSendable(done) && written == Stream(AcksOf(done))
      && produced <= |FramesOf(done)| && frameList == FramesOf(done)[produced..]
    }

    ghost predicate Reads(future: seq<Packet>)
      reads this
    {
      Accounts(future, blockSize) && Delivers()
    }

    // ----- reading off the buffer -----

    /** Reading past the end yields zero. */
    method ReadWord() returns (n: nat)
      modifies this`buffer
      ensures n < WORD && |buffer| <= |old(buffer)|
      ensures |old(buffer)| >= 4 ==> n == Value(old(buffer)[..4]) && buffer == old(buffer)[4..]
      ensures |old(buffer)| < 4 ==> n == 0 && buffer == []
    {
      if |buffer| < 4 {
        buffer := [];
        return 0;
      }
      n := Value(buffer[..4]);
      buffer := buffer[4..];
    }

    method Skip(len: int)
      modifies this`buffer
      ensures |buffer| <= |old(buffer)| && (0 <= len ==> buffer == old(buffer)[Min(len, |old(buffer)|)..])
    {
      if len > 0 { buffer := buffer[Min(len, |buffer|)..]; }
    }

    method ReadVariant() returns (v: seq<Byte>, valid: bool)
      modifies this`buffer
      ensures |buffer| <= |old(buffer)|
      ensures forall arg, rest | Argument(codec, arg) && old(buffer) == arg + rest :: valid && v == arg && buffer == rest
    {
      var (n, ok) := codec(buffer);
      var len := Min(n, |buffer|);
      v, valid := buffer[..len], ok;
      buffer := buffer[len..];
    }

    method AckFrame(frameNumber: nat)
      requires frameNumber < WORD
      modifies this`written
      ensures written == old(written) + Encode(Ack(frameNumber))
    {
      var bytes := Word(8);
      bytes := bytes + Word(PROTO_ACK);
      bytes := bytes + Word(frameNumber);
      written := written + bytes;
    }

    /**
     * Reads a frame after its opcode. Given a frame with arguments at the front of
     * the buffer, it reads exactly that, acknowledges it and keeps its arguments.
     * A frame without arguments takes the next four bytes of the stream with it, or
     * all that follows it when that is less; only when nothing follows is it read exactly.
     */
    method ParseFrame(ghost p: Packet, ghost rest: seq<Byte>) returns (ok: bool)
      modifies this`buffer, this`written, this`frameList
      ensures |buffer| <= |old(buffer)|
      ensures !ok ==> written == old(written) && frameList == old(frameList)
      ensures p.Frame? && Understood(codec, p) && old(buffer) == Body(p) + rest ==>
                ok && buffer == rest && frameList == old(frameList) + [p.args] && written == old(written) + Encode(Ack(p.serial))
      ensures p.Frame? && Sendable(p) && p.args == [] && old(buffer) == Body(p) + rest && blockSize == 12 ==>
                !ok && buffer == rest[Min(4, |rest|)..]
    {
      ghost var good := p.Frame? && Understood(codec, p) && buffer == Body(p) + rest;
      if p.Frame? && Sendable(p) && buffer == Body(p) + rest { HeaderFirst(p, rest); }
      var serial := ReadWord();
      var numargs := ReadWord();
      if numargs < 1 {
        Skip(blockSize - 8);
        return false;
      }
      var frame;
      ok, frame := ReadArguments(numargs, p, rest);
      if !ok { return false; }
      AckFrame(serial);
      frameList := frameList + [frame];
    }

    method ReadArguments(numargs: nat, ghost p: Packet, ghost rest: seq<Byte>) returns (ok: bool, frame: seq<seq<Byte>>)
      modifies this`buffer
      ensures |buffer| <= |old(buffer)|
      ensures p.Frame? && AllArguments(codec, p.args) && numargs == |p.args| && old(buffer) == Concat(p.args[0..]) + rest ==>
                ok && frame == p.args && buffer == rest
    {
      ghost var good := p.Frame? && AllArguments(codec, p.args) && numargs == |p.args| && buffer == Concat(p.args[0..]) + rest;
      frame, ok := [], true;
      var i := 0;
      while i < numargs && ok
        invariant i <= numargs && |buffer| <= |old(buffer)| && (good ==> ok)
        invariant good ==> buffer == Concat(p.args[i..]) + rest && frame == p.args[..i]
        decreases numargs - i, ok
      {
        if good { ArgumentNext(p.args, i, rest); }
        var v, valid := ReadVariant();
        if valid {
          frame := frame + [v];
          i := i + 1;
        } else {
          ok := false;
        }
      }
      if good { assert p.args[i..] == [] && p.args[..i] == p.args && [] + rest == rest; }
    }

    lemma HeaderFirst(p: Packet, rest: seq<Byte>)
      requires p.Frame? && Sendable(p)
      ensures var buffer := Body(p) + rest;
        && |buffer| >= 8 && Value(buffer[..4]) == p.serial && Value(buffer[4..][..4]) == |p.args|
        && buffer[4..][4..] == Concat(p.args[0..]) + rest
    {
      WordValue(p.serial);
      WordValue(|p.args|);
      var buffer := Body(p) + rest;
      assert buffer[..4] == Word(p.serial);
      assert buffer[4..] == Word(|p.args|) + Concat(p.args) + rest;
      assert buffer[4..][..4] == Word(|p.args|);
      assert p.args[0..] == p.args;
      assert buffer[4..][4..] == Concat(p.args) + rest;
    }

    lemma ArgumentNext(args: seq<seq<Byte>>, i: nat, rest: seq<Byte>)
      requires i < |args|
      ensures Concat(args[i..]) + rest == args[i] + (Concat(args[i + 1..]) + rest) && args[..i] + [args[i]] == args[..i + 1]
    {
      ConcatOneMore(args, i);
    }

    /** Handles the message at the front of the buffer by its opcode. */
    method HandleMessage(ghost p: Packet, ghost rest: seq<Byte>)
      modifies this`buffer, this`written, this`frameList
      ensures |buffer| <= |old(buffer)|
      ensures Understood(codec, p) && old(buffer) == Word(Opcode(p)) + Body(p) + rest && blockSize == |Body(p)| + 4 ==>
                && buffer == rest
                && frameList == old(frameList) + (if p.Frame? then [p.args] else [])
                && written == old(written) + (if p.Frame? then Encode(Ack(p.serial)) else [])
    {
      ghost var good := Understood(codec, p) && buffer == Word(Opcode(p)) + Body(p) + rest && blockSize == |Body(p)| + 4;
      if good {
        var n := |Body(p)| + 4;
        assert buffer[..n] == Word(Opcode(p)) + Body(p) && buffer[n..] == rest;
        OpcodeFirst(p, buffer);
      }
      var opcode := ReadWord();
      assert good ==> opcode == Opcode(p) && buffer == Body(p) + rest;
      if opcode == PROTO_INIT {
      } else if opcode == PROTO_FRAME {
        var _ := ParseFrame(p, rest);
      } else {
        Skip(blockSize - 4);
      }
    }

    /** One message of the loop: it is handled, and the length of the next is read if it is there. */
    method ReadMessage(ghost future: seq<Packet>) returns (data: bool)
      modifies this`buffer, this`blockSize, this`written, this`frameList, this`done
      ensures |buffer| <= |old(buffer)| && (data ==> |buffer| < |old(buffer)|)
      ensures old(Reads(future)) && 0 < old(blockSize) <= |old(buffer)| ==>
                && future != [] && done == old(done) + [future[0]] && Reads(future[1..])
                && if data then 0 < blockSize <= |buffer| else Waiting(blockSize, buffer)
    {
      ghost var good := Reads(future) && 0 < blockSize <= |buffer|;
      HandleNext(future, good);
      data := NextLength(if good then future[1..] else [], good);
    }

    method HandleNext(ghost future: seq<Packet>, ghost good: bool)
      requires good ==> Reads(future) && 0 < blockSize <= |buffer|
      modifies this`buffer, this`written, this`frameList, this`done
      ensures |buffer| <= |old(buffer)|
      ensures good ==> future != [] && done == old(done) + [future[0]] && Accounts(future[1..], 0) && Delivers()
    {
      ghost var p, rest := Ack(0), [];
      if good {
        ReadOn(done, future, received, blockSize, buffer);
        p, rest := future[0], buffer[blockSize..];
      }
      HandleMessage(p, rest);
      if good {
        OneMoreDone(done, p);
        done := done + [p];
      }
    }

    lemma OneMoreDone(ps: seq<Packet>, p: Packet)
      requires AllSendable(ps) && Sendable(p)
      ensures Stream(AcksOf(ps + [p])) == Stream(AcksOf(ps)) + if p.Frame? then Encode(Ack(p.serial)) else []
      ensures FramesOf(ps + [p]) == FramesOf(ps) + if p.Frame? then [p.args] else []
      ensures |FramesOf(ps + [p])| >= |FramesOf(ps)|
    {
      AcksOfOneMore(ps, p);
      if p.Frame? {
        StreamOne(Ack(p.serial));
        StreamBoth(AcksOf(ps), [Ack(p.serial)]);
      } else {
        assert AcksOf(ps + [p]) == AcksOf(ps);
      }
    }

    method NextLength(ghost future: seq<Packet>, ghost good: bool) returns (data: bool)
      requires good ==> Accounts(future, 0) && Delivers()
      modifies this`buffer, this`blockSize
      ensures |buffer| <= |old(buffer)| && (data ==> |buffer| < |old(buffer)|)
      ensures good ==> Reads(future) && if data then 0 < blockSize <= |buffer| else Waiting(blockSize, buffer)
    {
      data := true;
      if |buffer| >= 4 {
        if good { LengthRead(future, buffer); }
        var length := ReadWord();
        blockSize := Signed(length);
      } else {
        blockSize := 0;
        data := false;
      }
      if |buffer| < blockSize { data := false; }
    }

    /**
     * Runs when bytes have arrived. Whatever the bytes, it ends; if they continue
     * a stream of well-formed packets, every packet that is complete is handled,
     * in order, each frame acknowledged once and its arguments queued.
     */
    method ReadData(ghost future: seq<Packet>) returns (ghost n: nat)
      modifies this`buffer, this`blockSize, this`written, this`frameList, this`done
      ensures old(Reads(future)) ==>
                n <= |future| && done == old(done) + future[..n] && Reads(future[n..]) && Waiting(blockSize, buffer)
    {
      ghost var good := Reads(future);
      n := 0;
      assert future[0..] == future && done + future[..0] == done;
      var data := FirstLength(future);
      while data
        invariant good ==> n <= |future| && done == old(done) + future[..n] && Reads(future[n..])
        invariant good ==> if data then 0 < blockSize <= |buffer| else Waiting(blockSize, buffer)
        decreases |buffer|, data
      {
        data := ReadMessage(if good then future[n..] else []);
        if good {
          TakeOneMore(old(done), future, n);
          n := n + 1;
        }
      }
    }

    /** The length of the message being waited for, if it is not known and has arrived. */
    method FirstLength(ghost future: seq<Packet>) returns (data: bool)
      modifies this`buffer, this`blockSize
      ensures old(Reads(future)) ==> Reads(future) && if data then 0 < blockSize <= |buffer| else Waiting(blockSize, buffer)
    {
      ghost var good := Reads(future);
      if blockSize == 0 {
        if |buffer| < 4 { return false; }
        if good { LengthRead(future, buffer); }
        var length := ReadWord();
        blockSize := Signed(length);
      }
      data := |buffer| >= blockSize;
    }

    /** Bytes arrive at the socket. */
    method Receive(chunk: seq<Byte>, ghost future: seq<Packet>)
      modifies this`buffer, this`received
      ensures buffer == old(buffer) + chunk && received == old(received) + chunk
      ensures old(Reads(future)) && AllSendable(done + future) && received <= Stream(done + future) ==> Reads(future)
    {
      if Reads(future) && AllSendable(done + future) && received + chunk <= Stream(done + future) {
        MoreArrives(done, future, received, blockSize, buffer, chunk);
      }
      buffer := buffer + chunk;
      received := received + chunk;
    }

    /** Hands the oldest frame to the pipeline; the caller has seen that there is one. */
    method Produce(ghost future: seq<Packet>) returns (frame: seq<seq<Byte>>)
      requires frameList != []
      modifies this`frameList, this`produced
      ensures [frame] + frameList == old(frameList) && produced == old(produced) + 1
      ensures old(Delivers()) ==> Delivers() && frame == FramesOf(done)[old(produced)]
      ensures old(Reads(future)) ==> Reads(future)
    {
      frame := frameList[0];
      frameList := frameList[1..];
      produced := produced + 1;
    }
  }
}
