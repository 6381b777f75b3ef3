/**
 * A server and a client joined by two channels that deliver bytes in order, in
 * pieces of any size. Each method is one event of such a session; their calls,
 * in any order, are its runs.
 */
module TcpSession {
  import opened WireFormat
  import opened TcpServer
  import opened TcpClient

  /** The acknowledgements that frames call for, one each. */
  function AcksFor(packets: seq<Packet>): (acks: seq<Packet>)
    requires AllFrames(packets)
    ensures AllSendable(packets) ==> AllSendable(acks)
    ensures AllSendable(packets) ==> TcpServer.AllUnderstood(acks)
  {
    seq(|packets|, i requires 0 <= i < |packets| => Ack(packets[i].serial))
  }

  ghost predicate AllFrames(packets: seq<Packet>) { forall i | 0 <= i < |packets| :: packets[i].Frame? }

  lemma {:induction false} AcksOfFrames(packets: seq<Packet>)
    requires AllFrames(packets)
    ensures AcksOf(packets) == AcksFor(packets)
  {
    if packets != [] {
      var before := packets[..|packets| - 1];
      AcksOfFrames(before);
      assert AcksFor(packets) == AcksFor(before) + [Ack(packets[|packets| - 1].serial)];
    }
  }

  function PacketSerials(packets: seq<Packet>): seq<nat>
    requires AllFrames(packets)
  {
    seq(|packets|, i requires 0 <= i < |packets| => packets[i].serial)
  }

  /** Each queued frame is the encoding of a frame the client understands, under its own serial. */
  ghost predicate Carried(codec: Codec, packets: seq<Packet>, kept: seq<QueuedFrame>) {
    && TcpClient.AllUnderstood(codec, packets) && AllFrames(packets) && AllSendable(packets)
    && Bytes(kept) == Encodings(packets) && Serials(kept) == PacketSerials(packets)
  }

  lemma CarriedStream(codec: Codec, packets: seq<Packet>, kept: seq<QueuedFrame>)
    requires Carried(codec, packets, kept)
    ensures Stream(packets) == Concat(Bytes(kept))
  {
  }

  /** The client cannot have handled a frame of which part is still with the server. */
  lemma HandledAreWhole(codec: Codec, packets: seq<Packet>, kept: seq<QueuedFrame>, whole: nat, queue: seq<QueuedFrame>,
                        accepted: seq<Byte>, h: nat)
    requires Carried(codec, packets, kept) && Queued(kept, whole, queue) && Lossless(kept, whole, queue, accepted)
    requires h <= |packets| && AllSendable(packets[..h]) && Stream(packets[..h]) <= accepted
    ensures h <= whole
  {
    if h > whole {
      var first, rest := packets[..whole + 1], packets[whole + 1..h];
      assert packets[..h] == first + rest;
      StreamBoth(first, rest);
      assert |Bytes(kept)| == |Encodings(packets)|;
      assert Bytes(kept[..whole + 1]) == Bytes(kept)[..whole + 1] == Encodings(first);
      BytesOneMore(kept, whole);
    }
  }

  lemma CarriedOneMore(codec: Codec, packets: seq<Packet>, kept: seq<QueuedFrame>, p: Packet, f: QueuedFrame)
    requires Carried(codec, packets, kept) && TcpClient.Understood(codec, p) && p.Frame?
    requires f.serial == p.serial && f.bytes == Encode(p)
    ensures Carried(codec, packets + [p], kept + [f])
  {
    assert Bytes(kept + [f]) == Bytes(kept) + [f.bytes] && Encodings(packets + [p]) == Encodings(packets) + [Encode(p)];
    assert Serials(kept + [f]) == Serials(kept) + [f.serial] && PacketSerials(packets + [p]) == PacketSerials(packets) + [p.serial];
  }

  lemma CarriedOneLess(codec: Codec, packets: seq<Packet>, kept: seq<QueuedFrame>, k: nat)
    requires Carried(codec, packets, kept) && k < |kept|
    ensures k < |packets| && Carried(codec, packets[..k] + packets[k + 1..], kept[..k] + kept[k + 1..])
  {
    assert |Bytes(kept)| == |Encodings(packets)|;
    QueuedWithout(kept, k);
    PacketsWithout(packets, k);
  }

  function Without<T>(s: seq<T>, k: nat): seq<T>
    requires k < |s|
  {
    s[..k] + s[k + 1..]
  }

  lemma QueuedWithout(kept: seq<QueuedFrame>, k: nat)
    requires k < |kept|
    ensures Bytes(kept[..k] + kept[k + 1..]) == Without(Bytes(kept), k)
    ensures Serials(kept[..k] + kept[k + 1..]) == Without(Serials(kept), k)
  {
  }

  lemma PacketsWithout(packets: seq<Packet>, k: nat)
    requires k < |packets| && AllFrames(packets) && AllSendable(packets)
    ensures var packets' := packets[..k] + packets[k + 1..];
      && AllFrames(packets') && AllSendable(packets')
      && Encodings(packets') == Without(Encodings(packets), k) && PacketSerials(packets') == Without(PacketSerials(packets), k)
  {
  }

  /** The acknowledgements of frames a to h, as written. */
  function AckBytes(packets: seq<Packet>, a: nat, h: nat): seq<Byte>
    requires AllFrames(packets) && AllSendable(packets) && a <= h <= |packets|
  {
    Stream(AcksFor(packets[a..h]))
  }

  lemma PrefixStreams(some: seq<Packet>, all: seq<Packet>)
    requires some <= all && AllSendable(all)
    ensures AllSendable(some) && Stream(some) <= Stream(all)
  {
    assert all == some + all[|some|..];
    StreamBoth(some, all[|some|..]);
  }

  lemma Rejoined(done: seq<Packet>, all: seq<Packet>)
    requires done <= all
    ensures done == all[..|done|] && done + all[|done|..] == all
  {
  }

  // ----- where each reading end is -----

  /** Where a reading end is: the packets done, the bytes received, the length waited for and the bytes not read. */
  datatype End = End(done: seq<Packet>, received: seq<Byte>, blockSize: int, buffer: seq<Byte>)

  /** The end has handled a prefix of the packets, and waits for the next. */
  ghost predicate At(packets: seq<Packet>, e: End) {
    match e
    case End(done, received, blockSize, buffer) =>
      done <= packets && Reading(done, packets[|done|..], received, blockSize, buffer) && Waiting(blockSize, buffer)
  }

  /** A reading end does not notice that what is to come is different, as long as it agrees with what has come. */
  lemma StaysAt(packets: seq<Packet>, packets': seq<Packet>, e: End)
    requires At(packets, e) && e.done <= packets' && AllSendable(packets') && e.received <= Stream(packets')
    ensures At(packets', e)
  {
    Rejoined(e.done, packets');
    NewFuture(e.done, packets[|e.done|..], packets'[|e.done|..], e.received, e.blockSize, e.buffer);
  }

  class Session {
    const server: ServerConnection
    const client: TCPClientProducer
    /** Bytes written at one end and not yet delivered at the other. */
    var toClient: seq<Byte>
    var toServer: seq<Byte>
    /** The frames the server has kept. */
    ghost var packets: seq<Packet>

    ghost function Handled(): nat reads client { |client.done| }

    ghost function ClientEnd(): End reads client { End(client.done, client.received, client.blockSize, client.buffer) }

    ghost function ServerEnd(): End reads server { End(server.done, server.received, server.blockSize, server.buffer) }

    ghost function Acknowledged(): nat reads server { |server.done| }

    ghost predicate ServerSends()
      reads this, server, client
    {
      && server.Valid() && !server.torn && Carried(client.codec, packets, server.kept)
      && server.accepted == client.received + toClient
    }

    ghost predicate ClientReads()
      reads this, server, client
    {
      && At(packets, ClientEnd())
      && client.Delivers() && client.written == server.received + toServer
    }

    ghost predicate ServerReads()
      reads this, server, client
    {
      && At(AcksOf(client.done), ServerEnd())
      && Acknowledged() <= Handled() <= server.whole && server.acked == Acknowledged() && server.ignored == 0
    }

    ghost predicate Valid()
      reads this, server, client
    {
      ServerSends() && ClientReads() && ServerReads()
    }

    constructor (codec: Codec, lossless: bool, maxFramesInQueue: nat, maxFramesInFlight: nat)
      ensures Valid() && fresh(server) && fresh(client) && packets == [] && server.lossless == lossless
    {
      server := new ServerConnection(lossless, maxFramesInQueue, maxFramesInFlight);
      client := new TCPClientProducer(codec);
      toClient, toServer, packets := [], [], [];
      new;
      NothingIsThere();
      server.Start();
    }

    lemma NothingIsThere()
      ensures At([], End([], [], 0, [])) && AcksOf([]) == [] && Carried(client.codec, [], [])
    {
      assert Encodings([]) == [];
    }

    lemma StreamHolds()
      requires ServerSends()
      ensures AllSendable(packets) && client.received <= server.accepted <= Stream(packets)
    {
      NothingLost(server.kept, server.whole, server.frameQueue, server.accepted);
      CarriedStream(client.codec, packets, server.kept);
    }

    // ----- sending -----

    /** What the server's socket has taken since `before` is on its way. */
    method Ship(before: nat)
      requires before <= |server.accepted| && server.accepted[..before] == client.received + toClient
      modifies this`toClient
      ensures server.accepted == client.received + toClient
    {
      assert server.accepted == server.accepted[..before] + server.accepted[before..];
      Regroup(client.received, toClient, server.accepted[before..]);
      toClient := toClient + server.accepted[before..];
    }

    /** Nothing changed at the client. */
    twostate predicate ClientStands()
      reads this, server, client
    {
      && ClientEnd() == old(ClientEnd()) && client.written == old(client.written)
      && client.produced == old(client.produced) && client.frameList == old(client.frameList)
    }

    /** The server kept what it had kept, and sent nothing. */
    twostate predicate ServerKeeps()
      reads this, server
    {
      && server.kept == old(server.kept) && server.whole == old(server.whole) && server.accepted == old(server.accepted)
      && server.torn == old(server.torn)
    }

    /** The server read nothing. */
    twostate predicate ServerStands()
      reads this, server, client
    {
      && ServerEnd() == old(ServerEnd()) && server.acked == old(server.acked) && server.ignored == old(server.ignored)
    }

    /** Nothing was read at either end. */
    twostate predicate NothingRead()
      reads this, server, client
    {
      ClientStands() && ServerStands() && toServer == old(toServer)
    }

    /** The server gets round to sending. */
    method SendData()
      requires Valid()
      modifies this`toClient, server`accepted, server`refusals, server`frameQueue, server`frameNumbersInFlight, server`whole, server`waiting
      ensures Valid()
    {
      SendBytes();
    }

    method SendBytes()
      requires ServerSends()
      modifies this`toClient, server`accepted, server`refusals, server`frameQueue, server`frameNumbersInFlight, server`whole, server`waiting
      ensures ServerSends() && NothingRead() && old(server.whole) <= server.whole
    {
      var before := |server.accepted|;
      server.SendData();
      Ship(before);
    }

    /** A frame is encoded and queued at the server. */
    method QueueFrame(serial: nat, args: seq<seq<Byte>>)
      requires Valid() && TcpClient.Understood(client.codec, Frame(serial, args))
      modifies this`toClient, this`packets, server`accepted, server`refusals, server`frameQueue, server`frameNumbersInFlight, server`whole
      modifies server`waiting, server`kept, server`torn
      ensures !server.torn ==> Valid()
      ensures server.lossless ==> !server.torn
      ensures server.lossless && server.socket != NoSocket ==> packets == old(packets) + [Frame(serial, args)]
    {
      QueueForClient(serial, args);
    }

    method QueueForClient(serial: nat, args: seq<seq<Byte>>)
      requires Valid() && TcpClient.Understood(client.codec, Frame(serial, args))
      modifies this`toClient, this`packets, server`accepted, server`refusals, server`frameQueue, server`frameNumbersInFlight, server`whole
      modifies server`waiting, server`kept, server`torn
      ensures !server.torn ==> ServerSends() && ClientReads()
      ensures server.lossless ==> !server.torn
      ensures NothingRead() && old(server.whole) <= server.whole
      ensures server.lossless && server.socket != NoSocket ==> packets == old(packets) + [Frame(serial, args)]
    {
      ghost var before := packets;
      QueueBlock(serial, args);
      if !server.torn {
        StreamHolds();
        StaysAt(before, packets, ClientEnd());
      }
    }

    method QueueBlock(serial: nat, args: seq<seq<Byte>>)
      requires ServerSends() && TcpClient.Understood(client.codec, Frame(serial, args))
      requires Handled() <= server.whole && client.done <= packets
      modifies this`toClient, this`packets, server`accepted, server`refusals, server`frameQueue, server`frameNumbersInFlight, server`whole
      modifies server`waiting, server`kept, server`torn
      ensures !server.torn ==> ServerSends()
      ensures server.lossless ==> !server.torn
      ensures NothingRead() && old(server.whole) <= server.whole && client.done <= packets
      ensures server.lossless && server.socket != NoSocket ==> packets == old(packets) + [Frame(serial, args)]
    {
      ghost var kept := server.kept;
      var block := EncodeFrame(serial, args);
      QueueBytes(serial, block);
      if server.socket != NoSocket {
        packets := Keep(client.codec, packets, kept, Frame(serial, args), QueuedFrame(serial, block, 0), server.kept, server.whole,
                        client.done);
      }
    }

    method QueueBytes(serial: nat, block: seq<Byte>)
      requires server.Valid() && !server.torn && server.accepted == client.received + toClient
      modifies this`toClient, server`accepted, server`refusals, server`frameQueue, server`frameNumbersInFlight, server`whole
      modifies server`waiting, server`kept, server`torn
      ensures server.Valid() && server.accepted == client.received + toClient && NothingRead() && old(server.whole) <= server.whole
      ensures server.socket == NoSocket ==> server.kept == old(server.kept)
      ensures server.socket != NoSocket ==>
                var all := old(server.kept) + [QueuedFrame(serial, block, 0)];
                server.kept == all
                || (!server.lossless && server.whole < |all| && server.kept == all[..server.whole] + all[server.whole + 1..])
    {
      var before := |server.accepted|;
      server.QueueFrame(serial, block);
      Ship(before);
    }

    // ----- delivery to the client -----

    /** The next bytes on the way to the client arrive there, and are read. */
    method DeliverToClient(k: nat)
      requires Valid() && k <= |toClient|
      modifies this`toClient, this`toServer, client
      ensures Valid() && toClient == old(toClient)[k..] && old(client.done) <= client.done
    {
      var before := |client.written|;
      ReceiveAndRead(k);
      MoreAcks(old(client.done), client.done, ServerEnd());
      ShipAcks(before);
    }

    method ReceiveAndRead(k: nat)
      requires ServerSends() && k <= |toClient| && client.Delivers()
      requires At(packets, ClientEnd())
      modifies this`toClient, client
      ensures ServerSends() && client.Delivers() && toClient == old(toClient)[k..]
      ensures At(packets, ClientEnd()) && ServerStands() && toServer == old(toServer)
      ensures old(client.done) <= client.done && Handled() <= server.whole
    {
      StreamHolds();
      Arrive(k);
      ReadAtClient();
      HandledSoFar();
    }

    method ReadAtClient()
      requires client.done <= packets && client.Reads(packets[Handled()..])
      modifies client`buffer, client`blockSize, client`written, client`frameList, client`done
      ensures client.Delivers() && At(packets, ClientEnd()) && old(client.done) <= client.done
      ensures client.received == old(client.received) && ServerStands() && toServer == old(toServer) && toClient == old(toClient)
    {
      ghost var n := client.ReadData(packets[Handled()..]);
      ReadTo(packets, old(client.done), n, client.done);
    }

    method Arrive(k: nat)
      requires AllSendable(packets) && server.accepted <= Stream(packets) && server.accepted == client.received + toClient
      requires k <= |toClient| && client.done <= packets && client.Reads(packets[Handled()..])
      modifies this`toClient, client`buffer, client`received
      ensures server.accepted == client.received + toClient && ServerStands() && toServer == old(toServer)
      ensures toClient == old(toClient)[k..] && client.done == old(client.done) && client.Reads(packets[Handled()..])
    {
      var chunk := toClient[..k];
      toClient := toClient[k..];
      assert chunk + toClient == old(toClient);
      Regroup(client.received, chunk, toClient);
      Rejoined(client.done, packets);
      client.Receive(chunk, packets[Handled()..]);
    }

    lemma HandledSoFar()
      requires ServerSends() && At(packets, ClientEnd())
      ensures Handled() <= server.whole
    {
      Rejoined(client.done, packets);
      HandledAreWhole(client.codec, packets, server.kept, server.whole, server.frameQueue, server.accepted, Handled());
    }

    /** Acknowledgements written since `before` are on their way. */
    method ShipAcks(before: nat)
      requires before <= |client.written| && client.written[..before] == server.received + toServer
      modifies this`toServer
      ensures client.written == server.received + toServer
    {
      assert client.written == client.written[..before] + client.written[before..];
      Regroup(server.received, toServer, client.written[before..]);
      toServer := toServer + client.written[before..];
    }

    /** The pipeline at the client takes the oldest frame it holds. */
    method Produce() returns (frame: seq<seq<Byte>>)
      requires Valid() && client.frameList != []
      modifies client`frameList, client`produced
      ensures Valid() && client.produced == old(client.produced) + 1 <= |FramesOf(client.done)|
      ensures frame == FramesOf(client.done)[old(client.produced)]
    {
      frame := client.Produce(packets[Handled()..]);
    }

    // ----- delivery to the server -----

    /** The next bytes on the way to the server arrive there, and are read. */
    method DeliverToServer(k: nat)
      requires Valid() && k <= |toServer|
      modifies this`toServer, server`buffer, server`received, server`blockSize, server`frameNumbersInFlight
      modifies server`waiting, server`acked, server`ignored, server`done
      ensures Valid() && toServer == old(toServer)[k..] && old(server.done) <= server.done
    {
      DeliverAcks(k);
    }

    method DeliverAcks(k: nat)
      requires k <= |toServer| && AllFrames(packets) && client.Delivers() && client.done <= packets
      requires ServerReads() && server.Valid() && Serials(server.kept) == PacketSerials(packets)
      requires client.written == server.received + toServer
      modifies this`toServer, server`buffer, server`received, server`blockSize, server`frameNumbersInFlight
      modifies server`waiting, server`acked, server`ignored, server`done
      ensures server.Valid() && ServerReads() && client.written == server.received + toServer
      ensures toServer == old(toServer)[k..] && old(server.done) <= server.done
      ensures ClientStands() && ServerKeeps()
    {
      ArriveAtServer(k);
      ReadAcks();
    }

    method ArriveAtServer(k: nat)
      requires k <= |toServer| && client.Delivers() && client.written == server.received + toServer
      requires server.done <= AcksOf(client.done) && server.Reads(AcksOf(client.done)[Acknowledged()..])
      modifies this`toServer, server`buffer, server`received
      ensures toServer == old(toServer)[k..] && client.written == server.received + toServer
      ensures server.Reads(AcksOf(client.done)[Acknowledged()..])
      ensures ClientStands() && ServerKeeps() && server.done == old(server.done)
      ensures server.acked == old(server.acked) && server.ignored == old(server.ignored)
    {
      var chunk := toServer[..k];
      toServer := toServer[k..];
      assert chunk + toServer == old(toServer);
      Regroup(server.received, chunk, toServer);
      Rejoined(server.done, AcksOf(client.done));
      server.Receive(chunk, AcksOf(client.done)[Acknowledged()..]);
    }

    method ReadAtServer(ghost acks: seq<Packet>) returns (ghost n: nat)
      requires server.Valid() && server.done <= acks && server.Reads(acks[Acknowledged()..])
      modifies server`buffer, server`blockSize, server`frameNumbersInFlight, server`waiting, server`acked, server`ignored, server`done
      ensures server.Valid() && At(acks, ServerEnd())
      ensures old(server.done) <= server.done && Acknowledged() == old(Acknowledged()) + n && old(Acknowledged()) + n <= |acks|
      ensures Flight(server.frameNumbersInFlight, server.ignored)
              == AcknowledgeAll(old(Flight(server.frameNumbersInFlight, server.ignored)), acks[old(Acknowledged())..][..n])
      ensures ClientStands() && ServerKeeps() && server.received == old(server.received)
    {
      n := server.ReadyRead(acks[Acknowledged()..]);
      ReadTo(acks, old(server.done), n, server.done);
    }

    /** Whatever acknowledgements are complete are the ones expected: they leave the flight, and none is ignored. */
    method ReadAcks()
      requires server.Valid() && AllFrames(packets) && client.done <= packets && Serials(server.kept) == PacketSerials(packets)
      requires server.done <= AcksOf(client.done) && server.Reads(AcksOf(client.done)[Acknowledged()..])
      requires Acknowledged() <= Handled() <= server.whole && server.acked == Acknowledged() && server.ignored == 0
      modifies server`buffer, server`blockSize, server`frameNumbersInFlight, server`waiting, server`acked, server`ignored, server`done
      ensures server.Valid() && At(AcksOf(client.done), ServerEnd())
      ensures old(server.done) <= server.done && Acknowledged() <= Handled() && server.acked == Acknowledged() && server.ignored == 0
      ensures server.frameNumbersInFlight == old(server.frameNumbersInFlight)[|server.done| - |old(server.done)|..]
      ensures ClientStands() && ServerKeeps() && server.received == old(server.received)
    {
      ghost var a, flight := Acknowledged(), server.frameNumbersInFlight;
      ghost var n := ReadAtServer(AcksOf(client.done));
      AcksOfFrames(client.done);
      ExpectedNext(packets, client.done, server.kept, server.whole, a, n, flight);
      assert |server.frameNumbersInFlight| == server.whole - server.acked;
    }

    // ----- what every run keeps -----

    /**
     * The ack protocol: what is in flight at the server is, in order, the frames
     * whose acknowledgements are on their way and those the client has not handled;
     * so no acknowledgement is ever ignored, and the limit is kept.
     */
    lemma AckProtocol()
      requires Valid()
      ensures Acknowledged() <= Handled() <= server.whole <= |server.kept|
      ensures server.done <= AcksOf(client.done)
      ensures server.frameNumbersInFlight ==
                Serials(server.kept[Acknowledged()..Handled()]) + Serials(server.kept[Handled()..server.whole])
      ensures |server.frameNumbersInFlight| <= server.maxFramesInFlight && server.ignored == 0
    {
      FlightSplits(server.kept, Acknowledged(), Handled(), server.whole);
    }

    /** What is on its way to the server, the part it has read but not handled included, are these acknowledgements. */
    lemma AcksOnTheirWay()
      requires Valid()
      ensures Acknowledged() <= Handled() <= |packets| && AllSendable(packets)
      ensures Pending(server.blockSize, server.buffer) + toServer == AckBytes(packets, Acknowledged(), Handled())
    {
      AcksInTransit(packets, client.done, server.done);
      InTransit(Stream(server.done), Pending(server.blockSize, server.buffer), toServer,
                AckBytes(packets, Acknowledged(), Handled()));
    }

    /** The client has handled the oldest frames, in order, and holds the argument lists of those it has not produced. */
    lemma FramesArriveInOrder()
      requires Valid()
      ensures client.done == packets[..Handled()] && client.produced <= |FramesOf(packets[..Handled()])|
      ensures client.frameList == FramesOf(packets[..Handled()])[client.produced..]
    {
      Rejoined(client.done, packets);
    }

    /** Once everything written has been delivered, everything kept has been handled. */
    lemma AllDelivered()
      requires Valid() && server.frameQueue == [] && toClient == []
      ensures client.done == packets
    {
      AllWritten(server.kept, server.whole, server.accepted);
      assert client.received + [] == client.received;
      AllArrived(client.codec, packets, server.kept, ClientEnd());
    }

    /** Once every acknowledgement too has been delivered, nothing is in flight. */
    lemma AllAcknowledged()
      requires Valid() && client.done == packets && toServer == [] && server.whole <= |packets|
      ensures server.frameNumbersInFlight == []
    {
      AcksOfFrames(packets);
      AllRead(AcksOf(packets), ServerEnd());
    }
  }

  lemma AllWritten(kept: seq<QueuedFrame>, whole: nat, accepted: seq<Byte>)
    requires Queued(kept, whole, []) && Lossless(kept, whole, [], accepted)
    ensures accepted == Concat(Bytes(kept))
  {
    assert kept[..whole] == kept;
    assert accepted == Concat(Bytes(kept[..whole])) + [];
  }

  lemma AllArrived(codec: Codec, packets: seq<Packet>, kept: seq<QueuedFrame>, e: End)
    requires Carried(codec, packets, kept) && e.received == Concat(Bytes(kept)) && At(packets, e)
    ensures e.done == packets
  {
    CarriedStream(codec, packets, kept);
    AllRead(packets, e);
  }

  lemma AllRead(packets: seq<Packet>, e: End)
    requires AllSendable(packets) && e.received == Stream(packets) && At(packets, e)
    ensures e.done == packets
  {
    NoneIsBehind(e.done, packets[|e.done|..], e.blockSize, e.buffer, packets, [], e.received);
  }

  lemma FlightSplits(kept: seq<QueuedFrame>, a: nat, h: nat, w: nat)
    requires a <= h <= w <= |kept|
    ensures Serials(kept[..w])[a..] == Serials(kept[a..h]) + Serials(kept[h..w])
  {
  }

  /** The acknowledgements written are those read and those on their way. */
  lemma AcksInTransit(packets: seq<Packet>, handled: seq<Packet>, acks: seq<Packet>)
    requires AllFrames(packets) && AllSendable(packets) && handled <= packets && acks <= AcksOf(handled)
    ensures |acks| <= |handled| && AllSendable(handled) && AllSendable(acks)
    ensures Stream(AcksOf(handled)) == Stream(acks) + AckBytes(packets, |acks|, |handled|)
  {
    AcksOfFrames(handled);
    LaterAcks(packets, handled, acks);
    LaterBytes(packets, |acks|, |handled|, acks);
  }

  lemma LaterAcks(packets: seq<Packet>, handled: seq<Packet>, acks: seq<Packet>)
    requires AllFrames(packets) && AllSendable(packets) && handled <= packets && acks <= AcksFor(handled)
    ensures |acks| <= |handled| && AllSendable(handled) && AllSendable(acks)
    ensures AcksFor(handled) == acks + AcksFor(packets[|acks|..|handled|])
  {
    assert AllSendable(handled);
  }

  lemma LaterBytes(packets: seq<Packet>, a: nat, h: nat, acks: seq<Packet>)
    requires AllFrames(packets) && AllSendable(packets) && a <= h <= |packets| && AllSendable(acks)
    ensures AllSendable(acks + AcksFor(packets[a..h]))
    ensures Stream(acks + AcksFor(packets[a..h])) == Stream(acks) + AckBytes(packets, a, h)
  {
    StreamBoth(acks, AcksFor(packets[a..h]));
  }

  lemma InTransit(a: seq<Byte>, b: seq<Byte>, c: seq<Byte>, d: seq<Byte>)
    requires a + b + c == a + d
    ensures b + c == d
  {
    Regroup(a, b, c);
    assert b + c == (a + (b + c))[|a|..] && d == (a + d)[|a|..];
  }

  /** The serials in flight are those of the acknowledgements to come, in the same order. */
  lemma ExpectedNext(packets: seq<Packet>, handled: seq<Packet>, kept: seq<QueuedFrame>, whole: nat, a: nat, n: nat, flight: seq<nat>)
    requires AllFrames(packets) && handled <= packets && Serials(kept) == PacketSerials(packets)
    requires a + n <= |handled| <= whole <= |kept| && flight == Serials(kept[..whole])[a..]
    ensures AcknowledgeAll(Flight(flight, 0), AcksFor(handled)[a..][..n]) == Flight(flight[n..], 0)
  {
    var acks := AcksFor(handled)[a..][..n];
    forall i | 0 <= i < n ensures acks[i] == Ack(flight[i]) {
      assert flight[i] == Serials(kept)[a + i] == PacketSerials(packets)[a + i];
    }
    AcknowledgedInOrder(Flight(flight, 0), acks);
  }

  /** A client that handles more frames only adds acknowledgements. */
  lemma MoreAcks(handled: seq<Packet>, more: seq<Packet>, e: End)
    requires AllFrames(more) && AllSendable(more) && handled <= more && At(AcksOf(handled), e)
    ensures AllSendable(handled) && Stream(AcksOf(handled)) <= Stream(AcksOf(more)) && At(AcksOf(more), e)
  {
    AcksGrow(handled, more);
    PrefixStreams(AcksOf(handled), AcksOf(more));
    ReceivedIsStreamed(AcksOf(handled), e);
    StaysAt(AcksOf(handled), AcksOf(more), e);
  }

  lemma AcksGrow(handled: seq<Packet>, more: seq<Packet>)
    requires AllFrames(more) && AllSendable(more) && handled <= more
    ensures AllSendable(handled) && AcksOf(handled) <= AcksOf(more)
  {
    AcksOfFrames(handled);
    AcksOfFrames(more);
    assert AcksFor(handled) == AcksFor(more)[..|handled|];
  }

  lemma ReceivedIsStreamed(packets: seq<Packet>, e: End)
    requires At(packets, e)
    ensures AllSendable(packets) && e.received <= Stream(packets)
  {
    Rejoined(e.done, packets);
    StreamBoth(e.done, packets[|e.done|..]);
  }

  lemma ReadTo(packets: seq<Packet>, done: seq<Packet>, n: nat, done': seq<Packet>)
    requires done <= packets && n <= |packets| - |done| && done' == done + packets[|done|..][..n]
    ensures done' <= packets && packets[|done'|..] == packets[|done|..][n..]
  {
  }

  /** The packets that go with the frames kept after one more was queued, and perhaps one dropped. */
  lemma Keep(codec: Codec, packets: seq<Packet>, kept: seq<QueuedFrame>, p: Packet, f: QueuedFrame, after: seq<QueuedFrame>, whole: nat,
             done: seq<Packet>)
    returns (packets': seq<Packet>)
    requires Carried(codec, packets, kept) && TcpClient.Understood(codec, p) && p.Frame?
    requires f.serial == p.serial && f.bytes == Encode(p)
    requires after == kept + [f] || (whole <= |kept| && after == (kept + [f])[..whole] + (kept + [f])[whole + 1..])
    requires done <= packets && |done| <= whole
    ensures Carried(codec, packets', after) && done <= packets'
    ensures after == kept + [f] ==> packets' == packets + [p]
  {
    var all := packets + [p];
    CarriedOneMore(codec, packets, kept, p, f);
    if after == kept + [f] {
      packets' := all;
    } else {
      CarriedOneLess(codec, all, kept + [f], whole);
      packets' := all[..whole] + all[whole + 1..];
      assert all[..whole][..|done|] == done;
    }
  }
}
