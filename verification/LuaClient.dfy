/**
 The game-side client: it appends whatever the socket returns to one buffer and
 peels complete frames off its front, and it frames the packets it sends.
 */
module LuaClient {
  import opened Bytes
  import opened Framing
  import opened Packet

  /** One call of the packet handler. */
  datatype Delivery = Delivery(kind: byte, payload: seq<byte>)

  /** The handler call a frame leads to; frames shorter than a header are dropped. */
  function Handle(packet: seq<byte>): seq<Delivery>
  {
    if |packet| >= HEADER_SIZE then
      var end := HEADER_SIZE + FromLittleEndian(packet[7..9]);
      [Delivery(packet[0], packet[HEADER_SIZE..if end <= |packet| then end else |packet|])]
    else []
  }

  function HandleAll(packets: seq<seq<byte>>): seq<Delivery>
  {
    if packets == [] then [] else Handle(packets[0]) + HandleAll(packets[1..])
  }

  datatype Receiver = Receiver(buf: seq<byte>, handled: seq<Delivery>)

  const EMPTY := Receiver([], [])

  /** One poll: `data` is what the socket returned, nothing or a chunk of bytes. */
  function Poll(r: Receiver, data: Option<seq<byte>>): Receiver
  {
    if data == None || data.value == [] then r
    else
      var s := r.buf + data.value;
      Receiver(Rest(s), r.handled + HandleAll(Frames(s)))
  }

  function PollAll(r: Receiver, polls: seq<Option<seq<byte>>>): Receiver
    decreases |polls|
  {
    if polls == [] then r else PollAll(Poll(r, polls[0]), polls[1..])
  }

  /** All bytes a series of polls received. */
  function Received(polls: seq<Option<seq<byte>>>): seq<byte>
  {
    if polls == [] then [] else (if polls[0] == None then [] else polls[0].value) + Received(polls[1..])
  }

  lemma {:induction false} HandleAllAppend(a: seq<seq<byte>>, b: seq<seq<byte>>)
    ensures HandleAll(a + b) == HandleAll(a) + HandleAll(b)
  {
    if a == [] {
      assert a + b == b;
    } else {
      HandleAllAppend(a[1..], b);
      assert (a + b)[1..] == a[1..] + b;
      Associates(Handle(a[0]), HandleAll(a[1..]), HandleAll(b));
    }
  }

  /** A receiver that has seen `s` and kept up with it. */
  function Reading(s: seq<byte>): Receiver
  {
    Receiver(Rest(s), HandleAll(Frames(s)))
  }

  lemma PollReads(s: seq<byte>, chunk: seq<byte>)
    ensures Poll(Reading(s), Some(chunk)) == Reading(s + chunk)
  {
    if chunk == [] {
      assert s + chunk == s;
    } else {
      FramesAppend(s, chunk);
      HandleAllAppend(Frames(s), Frames(Rest(s) + chunk));
    }
  }

  /**
   Chunking independence: after any series of polls the handler calls made and
   the bytes kept are those of one pass over all bytes received, and no complete
   frame is left in the buffer.
   */
  lemma PollingIsOnePass(polls: seq<Option<seq<byte>>>)
    ensures PollAll(EMPTY, polls) == Reading(Received(polls))
    ensures !HasFrame(PollAll(EMPTY, polls).buf)
  {
    PollAllReads([], polls);
    assert [] + Received(polls) == Received(polls);
    FramesSound(Received(polls));
  }

  lemma {:induction false} PollAllReads(s: seq<byte>, polls: seq<Option<seq<byte>>>)
    ensures PollAll(Reading(s), polls) == Reading(s + Received(polls))
    decreases |polls|
  {
    if polls == [] {
      assert s + [] == s;
    } else {
      var chunk := if polls[0] == None then [] else polls[0].value;
      PollReads(s, chunk);
      assert polls[0] == None ==> s + chunk == s;
      PollAllReads(s + chunk, polls[1..]);
      Associates(s, chunk, Received(polls[1..]));
    }
  }

  /** What the handler is given is what the header describes. */
  lemma HandleIsPayload(packet: seq<byte>)
    requires |packet| >= HEADER_SIZE
    ensures Handle(packet) == [Delivery(ParseHeader(packet).value.kind, Payload(packet))]
  {
    var s := packet[..HEADER_SIZE];
    var w := HEADER_WIDTHS;
    var s1, w1 := s[1..], w[1..];
    var s2, w2 := s1[2..], w1[1..];
    var s3, w3 := s2[4..], w2[1..];
    assert w1[0] == 2 && w2[0] == 4 && w3[0] == 2;
    assert Unpack(s, w)[1..] == Unpack(s1, w1);
    assert Unpack(s1, w1)[1..] == Unpack(s2, w2);
    assert Unpack(s2, w2)[1..] == Unpack(s3, w3);
    assert s3[..2] == packet[7..9];
    assert s[..1] == [packet[0]];
    assert FromLittleEndian(s[..1]) == packet[0];
  }

  /** The polling loop: handle the first complete frame, drop it, and look again. */
  function Peel(r: Receiver): Receiver
    decreases |r.buf|
  {
    if HasFrame(r.buf) then
      var n := FrameLen(r.buf);
      Peel(Receiver(r.buf[4 + n..], r.handled + Handle(r.buf[4..4 + n])))
    else r
  }

  lemma {:induction false} PeelReads(r: Receiver)
    ensures Peel(r) == Receiver(Rest(r.buf), r.handled + HandleAll(Frames(r.buf)))
    decreases |r.buf|
  {
    if HasFrame(r.buf) {
      var n := FrameLen(r.buf);
      var packet, tail := r.buf[4..4 + n], r.buf[4 + n..];
      PeelReads(Receiver(tail, r.handled + Handle(packet)));
      assert Frames(r.buf)[1..] == Frames(tail);
      Associates(r.handled, Handle(packet), HandleAll(Frames(tail)));
    }
  }

  class Extension {
    var hasSocket: bool
    var playerId: u16
    var tcpSeq: nat
    var recvBuf: seq<byte>
    var handled: seq<Delivery>
    var sent: seq<byte>

    constructor (hasSocket: bool)
      ensures State() == EMPTY && this.hasSocket == hasSocket && tcpSeq == 0 && playerId == 0 && sent == []
    {
      this.hasSocket, playerId, tcpSeq := hasSocket, 0, 0;
      recvBuf, handled, sent := [], [], [];
    }

    function State(): Receiver
      reads this
    {
      Receiver(recvBuf, handled)
    }

    /** `data` is the result of the socket's receive. */
    method PollTCP(data: Option<seq<byte>>)
      modifies this`recvBuf, this`handled
      ensures State() == if hasSocket then Poll(old(State()), data) else old(State())
    {
      if !hasSocket { return; }
      if data == None || |data.value| == 0 { return; }
      recvBuf := recvBuf + data.value;
      ghost var start := State();
      while |recvBuf| >= 4
        invariant Peel(State()) == Peel(start)
        decreases |recvBuf|
      {
        var frameLen := FromLittleEndian(recvBuf[..4]);
        if |recvBuf| < 4 + frameLen { break; }
        var packet := recvBuf[4..4 + frameLen];
        recvBuf := recvBuf[4 + frameLen..];
        Dispatch(packet);
      }
      PeelReads(start);
    }

    /** Calls the packet handler with the type and payload of one frame. */
    method Dispatch(packet: seq<byte>)
      modifies this`handled
      ensures handled == old(handled) + Handle(packet)
    {
      if |packet| >= 10 {
        var plen := FromLittleEndian(packet[7..9]);
        var end := if 10 + plen <= |packet| then 10 + plen else |packet|;
        handled := handled + [Delivery(packet[0], packet[10..end])];
      }
    }

    /**
     Sends one packet. `ok` is false when packing raises: the payload length does
     not fit 16 bits or the sequence number 32; the counter has advanced by then.
     The bytes written are the frame the C++ side would have written.
     */
    method TcpSend(kind: byte, payload: seq<byte>) returns (ok: bool)
      modifies this`tcpSeq, this`sent
      ensures tcpSeq == if hasSocket then old(tcpSeq) + 1 else old(tcpSeq)
      ensures ok <==> hasSocket ==> |payload| < 0x1_0000 && tcpSeq < 0x1_0000_0000
      ensures sent == if !hasSocket || !ok then old(sent)
                      else old(sent) + Frame(EncodePacket(kind, playerId, tcpSeq, payload, 0))
    {
      if !hasSocket { return true; }
      tcpSeq := tcpSeq + 1;
      if |payload| >= 0x1_0000 || tcpSeq >= 0x1_0000_0000 { return false; }
      var header := EncodeHeader(Header(kind, playerId, tcpSeq, |payload|, 0));  // "<BHIHb"
      var frame := LittleEndian(|header| + |payload|, 4);
      assert frame + header + payload == frame + (header + payload);
      sent := sent + (frame + header + payload);
      return true;
    }
  }
}
