/**
 The control channel end to end: packets built, framed, written to a stream and
 cut arbitrarily reach either kind of reader unchanged, and on any stream at all
 the two readers agree up to the point where the stricter one closes.
 */
module StreamTheorems {
  import opened Bytes
  import opened Framing
  import opened Packet
  import opened LuaClient
  import opened TcpSession

  datatype Message = Message(kind: byte, sender: u16, sequence: u32, payload: seq<byte>, flags: byte)

  ghost predicate Sendable(messages: seq<Message>)
  {
    forall i :: 0 <= i < |messages| ==> |messages[i].payload| < 0x1_0000
  }

  function Encode(m: Message): seq<byte>
    requires |m.payload| < 0x1_0000
  {
    EncodePacket(m.kind, m.sender, m.sequence, m.payload, m.flags)
  }

  function Encoded(messages: seq<Message>): (packets: seq<seq<byte>>)
    requires Sendable(messages)
    ensures |packets| == |messages|
    ensures forall i :: 0 <= i < |messages| ==> packets[i] == Encode(messages[i])
  {
    seq(|messages|, i requires 0 <= i < |messages| => Encode(messages[i]))
  }

  /** The handler calls that deliver these messages. */
  function Deliveries(messages: seq<Message>): (calls: seq<Delivery>)
    ensures |calls| == |messages|
  {
    seq(|messages|, i requires 0 <= i < |messages| => Delivery(messages[i].kind, messages[i].payload))
  }

  lemma {:induction false} HandleEncoded(messages: seq<Message>)
    requires Sendable(messages)
    ensures HandleAll(Encoded(messages)) == Deliveries(messages)
  {
    if messages != [] {
      var m := messages[0];
      HandleEncoded(messages[1..]);
      assert Encoded(messages)[1..] == Encoded(messages[1..]);
      PacketRoundTrip(m.kind, m.sender, m.sequence, m.payload, m.flags);
      HandleIsPayload(Encode(m));
      assert Deliveries(messages) == [Delivery(m.kind, m.payload)] + Deliveries(messages[1..]);
    }
  }

  /** Every packet is within the limits of both readers. */
  lemma EncodedIsAccepted(messages: seq<Message>)
    requires Sendable(messages)
    ensures Framable(Encoded(messages)) && AllAccepted(Encoded(messages))
  {
    forall i | 0 <= i < |messages| ensures 0 < |Encoded(messages)[i]| <= MAX_FRAME {
      assert |Encode(messages[i])| <= 10 + 0xFFFF;
    }
  }

  /**
   Full round trip, also while bytes are still on their way: when the bytes that
   arrived, in whatever chunks, are a first part of the stream that carries
   `messages`, both readers have delivered the same first messages, in order and
   unchanged, and the native reader is still open. Once all bytes have arrived,
   all messages have been delivered and nothing is left over.
   */
  lemma RoundTrip(messages: seq<Message>, polls: seq<Option<seq<byte>>>, chunks: seq<seq<byte>>, onTheWay: seq<byte>)
    requires Sendable(messages)
    requires Received(polls) == Flatten(chunks)
    requires Flatten(chunks) + onTheWay == Wire(Encoded(messages))
    ensures var lua, cpp := PollAll(EMPTY, polls), ReceiveAll(START, chunks);
            && |cpp.delivered| <= |messages|
            && cpp.delivered == Encoded(messages[..|cpp.delivered|])
            && lua.handled == Deliveries(messages[..|cpp.delivered|])
            && !cpp.closed
            && (onTheWay == [] ==> cpp == Reader(ReadLen, [], Encoded(messages), false)
                                   && lua == Receiver([], Deliveries(messages)))
  {
    var s, packets := Flatten(chunks), Encoded(messages);
    PollingIsOnePass(polls);
    ReceivingIsOnePass(chunks);
    EncodedIsAccepted(messages);
    FrontOfStream(packets, s, onTheWay);
    var n := |Frames(s)|;
    assert Sendable(messages[..n]);
    assert packets[..n] == Encoded(messages[..n]);
    HandleEncoded(messages[..n]);
    if onTheWay == [] {
      assert s + [] == s;
      assert messages[..n] == messages;
    }
  }

  /** What a first part of a well-formed stream reads as. */
  lemma FrontOfStream(packets: seq<seq<byte>>, s: seq<byte>, t: seq<byte>)
    requires Framable(packets) && AllAccepted(packets)
    requires s + t == Wire(packets)
    ensures |Frames(s)| <= |packets| && Frames(s) == packets[..|Frames(s)|]
    ensures !Refused(s)
    ensures t == [] ==> Frames(s) == packets && Rest(s) == []
  {
    FramesUnique(packets, []);
    assert Wire(packets) + [] == s + t;
    FramesAppend(s, t);
    var u := Rest(s) + t;
    var f, g := Frames(s), Frames(u);
    assert packets == f + g && Rest(u) == [];
    assert packets[..|f|] == f;
    AllAcceptedAppend(f, g);
    FramesSound(s);
    if |Rest(s)| >= 4 {
      assert u[..4] == Rest(s)[..4];
      assert HasFrame(u) && |g[0]| == FrameLen(Rest(s));
    }
    if t == [] {
      assert u == Rest(s);
    }
  }

  /** The bytes a reader holds back, with the length prefix it has already read. */
  function HeldBack(r: Reader): seq<byte>
  {
    if r.phase.ReadPayload? then LittleEndian(r.phase.size, 4) + r.inbox else r.inbox
  }

  /**
   On any stream, well formed or not: the native reader closes exactly when a
   refused length has arrived; until then both have handed out the same packets
   and hold the same bytes back, and afterwards the native reader's packets are
   the first of those the game-side reader handles.
   */
  lemma DeframersAgree(polls: seq<Option<seq<byte>>>, chunks: seq<seq<byte>>)
    requires Received(polls) == Flatten(chunks)
    ensures var lua, cpp := PollAll(EMPTY, polls), ReceiveAll(START, chunks);
            && (cpp.closed <==> Refused(Flatten(chunks)))
            && HandleAll(cpp.delivered) <= lua.handled
            && (!cpp.closed ==> HandleAll(cpp.delivered) == lua.handled && HeldBack(cpp) == lua.buf)
  {
    PollingIsOnePass(polls);
    ReceivingIsOnePass(chunks);
    ReadingsAgree(Flatten(chunks));
  }

  lemma ReadingsAgree(s: seq<byte>)
    ensures HandleAll(Standing(s).delivered) <= Reading(s).handled
    ensures !Refused(s) ==> Standing(s).delivered == Frames(s) && HeldBack(Standing(s)) == Rest(s)
  {
    if Refused(s) {
      var f, a := Frames(s), Accepted(Frames(s));
      AcceptedIsPrefix(f);
      HandleAllAppend(a, f[|a|..]);
      assert f == a + f[|a|..];
    } else if |Rest(s)| >= 4 {
      EncodeDecode(Rest(s)[..4]);
    }
  }

  lemma {:induction false} AcceptedIsPrefix(frames: seq<seq<byte>>)
    ensures Accepted(frames) <= frames
  {
    if frames != [] && !BadLength(|frames[0]|) {
      AcceptedIsPrefix(frames[1..]);
      assert frames == [frames[0]] + frames[1..];
    }
  }

  /** A vehicle update relayed as one datagram reaches the handler as the 66 bytes of its state. */
  lemma DatagramDelivers(sender: u16, sequence: u32, v: VehicleState)
    ensures Handle(VehicleUpdate(sender, sequence, v)) == [Delivery(VEHICLE_UPDATE, EncodeState(v))]
    ensures ParseState(Handle(VehicleUpdate(sender, sequence, v))[0].payload) == Some(v)
  {
    PacketRoundTrip(VEHICLE_UPDATE, sender, sequence, EncodeState(v), 0);
    HandleIsPayload(VehicleUpdate(sender, sequence, v));
    StateRoundTrip(v, []);
    assert EncodeState(v) + [] == EncodeState(v);
  }
}
