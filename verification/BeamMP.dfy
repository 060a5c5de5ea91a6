/**
 The BeamMP compatibility client: frames of a code byte and a 24-bit size, split
 packets put together again, and the handshake.
 */
module BeamMP {
  import opened Bytes
  import opened Decimal
  import opened Transform

  const CODE_AUTH: byte := 'P' as int
  const CODE_KICK: byte := 'K' as int
  const CODE_CHAT: byte := 'C' as int
  const CODE_MAP: byte := 'M' as int
  const CODE_OK: byte := 'O' as int
  const CODE_PING: byte := 'p' as int
  const CODE_PONG: byte := 'q' as int
  const CODE_READY: byte := 'R' as int
  const CODE_SYNC: byte := 'T' as int
  const CODE_SPAWN: byte := 'V' as int
  const CODE_DELETE: byte := 'X' as int
  const CODE_SPLIT: byte := 'S' as int
  const CODE_FINISH: byte := 'F' as int
  const CODE_WAIT: byte := 'W' as int

  datatype Packet = Packet(code: byte, data: seq<byte>)

  // ---------- frames ----------

  /** Three size bytes: a longer payload has its size cut to 24 bits. */
  function Frame(p: Packet): (s: seq<byte>)
    ensures |s| == 4 + |p.data|
  {
    [p.code] + LittleEndian(|p.data|, 3) + p.data
  }

  function FrameSize(s: seq<byte>): nat
  {
    if |s| < 4 then 0 else FromLittleEndian(s[1..4])
  }

  method BuildPacket(code: byte, data: seq<byte>) returns (pkt: array<byte>)
    ensures fresh(pkt) && pkt[..] == Frame(Packet(code, data))
  {
    var sz := |data|;
    pkt := new byte[4 + sz](_ => 0);
    pkt[0] := code;
    pkt[1] := sz % 0x100;
    pkt[2] := sz / 0x100 % 0x100;
    pkt[3] := sz / 0x100 / 0x100 % 0x100;
    forall i | 0 <= i < sz {
      pkt[4 + i] := data[i];
    }
    LittleEndianBytes(sz);
    assert sz / 0x100 / 0x100 == sz / 0x1_0000;
    assert pkt[1..4] == LittleEndian(sz, 3);
  }

  /** A frame byte for byte: the code, three size bytes, lowest first, and the data. */
  lemma FrameLayout(p: Packet)
    ensures var n := |p.data|;
            Frame(p) == [p.code, n % 0x100, n / 0x100 % 0x100, n / 0x1_0000 % 0x100] + p.data
  {
    LittleEndianBytes(|p.data|);
  }

  /** A frame announces its own size exactly when the payload is shorter than 2^24 bytes. */
  lemma FrameSizeIff(p: Packet, tail: seq<byte>)
    ensures FrameSize(Frame(p) + tail) == |p.data| <==> |p.data| < 0x100_0000
  {
    assert (Frame(p) + tail)[1..4] == LittleEndian(|p.data|, 3);
    Ranges();
    if |p.data| < 0x100_0000 {
      DecodeEncode(|p.data|, 3);
    }
  }

  // ---------- the client ----------

  datatype Reason = Kicked(message: seq<byte>) | ConnectionClosed | Requested

  datatype Event =
    | Connected(ok: bool, error: seq<byte>)
    | Disconnected(reason: Reason)
    | Chat(message: seq<byte>)
    | Moved(transform: Transform)
    | Spawned(playerId: u16, vehicleId: byte, model: seq<byte>)
    | Deleted(playerId: u16, vehicleId: byte)

  /** Everything but the reassembly buffer; `writes` is how many more writes the socket takes before one fails. */
  datatype Session = Session(
    connected: bool, writes: nat, playerId: u16, mapName: seq<byte>, privateKey: seq<byte>,
    sent: seq<Packet>, events: seq<Event>)

  datatype Client = Client(session: Session, splitBuf: seq<byte>, inSplit: bool)

  /** A write that fails ends the connection. */
  function Send(c: Session, code: byte, data: seq<byte>): Session
  {
    if !c.connected then c
    else if c.writes == 0 then c.(connected := false)
    else c.(writes := c.writes - 1, sent := c.sent + [Packet(code, data)])
  }

  function Notify(c: Session, e: Event): Session
  {
    c.(events := c.events + [e])
  }

  /** An answer that starts with a digit is the player id; anything else is a refusal. */
  function OnAuth(c: Session, data: seq<byte>): Session
  {
    if data != [] && IsDigit(data[0]) then
      match Stoi(data)
      case None => c
      case Some(id) => Notify(Send(c.(playerId := id % 0x1_0000), CODE_READY, []), Connected(true, []))
    else Notify(c, Connected(false, data))
  }

  /** What a packet that changes no connection state reports, if anything. */
  function Report(code: byte, data: seq<byte>): Option<Event>
  {
    if code == CODE_CHAT then Some(Chat(data))
    else if code == CODE_SYNC then
      match ParseTransform(data)
      case None => None
      case Some(t) => Some(Moved(t))
    else if code == CODE_SPAWN then
      var sep := ToColon(data);
      if sep == |data| then None
      else match ParseIds(data[..sep])
        case None => None
        case Some(ids) => Some(Spawned(ids.playerId, ids.vehicleId, data[sep + 1..]))
    else if code == CODE_DELETE then
      match ParseIds(data)
      case None => None
      case Some(ids) => Some(Deleted(ids.playerId, ids.vehicleId))
    else None
  }

  function HandlePacket(c: Session, p: Packet): Session
  {
    if p.code == CODE_MAP then Send(c.(mapName := p.data), CODE_AUTH, c.privateKey)
    else if p.code == CODE_AUTH then OnAuth(c, p.data)
    else if p.code == CODE_KICK then Notify(c.(connected := false), Disconnected(Kicked(p.data)))
    else if p.code == CODE_WAIT then Send(c, CODE_OK, [])
    else if p.code == CODE_PING then Send(c, CODE_PONG, [])
    else match Report(p.code, p.data)
      case None => c
      case Some(e) => Notify(c, e)
  }

  /** What one received frame does. */
  function OnFrame(c: Client, p: Packet): Client
  {
    if p.code == CODE_SPLIT then Client(c.session, c.splitBuf + p.data, true)
    else if p.code == CODE_FINISH then
      var whole := c.splitBuf + p.data;
      Client(if whole != [] then HandlePacket(c.session, Packet(whole[0], whole[1..])) else c.session, [], false)
    else c.(session := HandlePacket(c.session, p))
  }

  function OnFrames(c: Client, frames: seq<Packet>): Client
    decreases |frames|
  {
    if frames == [] || !c.session.connected then c else OnFrames(OnFrame(c, frames[0]), frames[1..])
  }

  /** Handles packets one after the other while the connection lasts, with no splitting involved. */
  function HandleAll(c: Session, packets: seq<Packet>): Session
    decreases |packets|
  {
    if packets == [] || !c.connected then c else HandleAll(HandlePacket(c, packets[0]), packets[1..])
  }

  function EndLoop(c: Client): Client
  {
    c.(session := Notify(c.session.(connected := false), Disconnected(ConnectionClosed)))
  }

  const MAX_FRAME: nat := 50 * 1024 * 1024

  /** The read loop over all bytes that arrive before the stream ends. */
  function ReadLoop(c: Client, s: seq<byte>): Client
    decreases |s|
  {
    if !c.session.connected || |s| < 4 || FrameSize(s) > MAX_FRAME || |s| < 4 + FrameSize(s) then EndLoop(c)
    else ReadLoop(OnFrame(c, Packet(s[0], s[4..4 + FrameSize(s)])), s[4 + FrameSize(s)..])
  }

  /** The read loop of a connection given up reports its end before the request is reported. */
  function GiveUp(c: Session): Session
  {
    if c.connected then Notify(Notify(c.(connected := false), Disconnected(ConnectionClosed)), Disconnected(Requested))
    else c
  }

  function Connect(c: Client, privateKey: seq<byte>, reachable: bool, error: seq<byte>, writes: nat): Client
  {
    var d := GiveUp(c.session).(writes := writes, playerId := 0, mapName := [], privateKey := privateKey);
    Client(if reachable then d.(connected := true) else Notify(d, Connected(false, error)), [], false)
  }

  class BeamMPClient {
    var connected: bool
    var writes: nat
    var splitBuf: seq<byte>
    var inSplit: bool
    var playerId: u16
    var mapName: seq<byte>
    var privateKey: seq<byte>
    var sent: seq<Packet>
    var events: seq<Event>

    constructor ()
      ensures State() == Client(Session(false, 0, 0, [], [], [], []), [], false)
    {
      connected, writes, splitBuf, inSplit, playerId := false, 0, [], false, 0;
      mapName, privateKey, sent, events := [], [], [], [];
    }

    function SessionState(): Session
      reads this
    {
      Session(connected, writes, playerId, mapName, privateKey, sent, events)
    }

    function State(): Client
      reads this
    {
      Client(SessionState(), splitBuf, inSplit)
    }

    method SendPacket(code: byte, data: seq<byte>)
      modifies this`connected, this`writes, this`sent
      ensures SessionState() == Send(old(SessionState()), code, data)
    {
      if !connected { return; }
      if writes == 0 {
        connected := false;
        return;
      }
      writes := writes - 1;
      sent := sent + [Packet(code, data)];
    }

    method Handle(code: byte, data: seq<byte>)
      modifies this`connected, this`writes, this`playerId, this`mapName, this`sent, this`events
      ensures SessionState() == HandlePacket(old(SessionState()), Packet(code, data))
    {
      if code == CODE_MAP {
        mapName := data;
        SendPacket(CODE_AUTH, privateKey);
      } else if code == CODE_AUTH {
        if data != [] && IsDigit(data[0]) {
          var id := Stoi(data);
          if id.Some? {
            playerId := id.value % 0x1_0000;
            SendPacket(CODE_READY, []);
            events := events + [Connected(true, [])];
          }
        } else {
          events := events + [Connected(false, data)];
        }
      } else if code == CODE_KICK {
        connected := false;
        events := events + [Disconnected(Kicked(data))];
      } else if code == CODE_CHAT {
        events := events + [Chat(data)];
      } else if code == CODE_SYNC {
        var t := Parse(data);
        if t.Some? { events := events + [Moved(t.value)]; }
      } else if code == CODE_SPAWN {
        var sep := ToColon(data);
        if sep < |data| {
          var ids := ParseIds(data[..sep]);
          if ids.Some? {
            events := events + [Spawned(ids.value.playerId, ids.value.vehicleId, data[sep + 1..])];
          }
        }
      } else if code == CODE_DELETE {
        var ids := ParseIds(data);
        if ids.Some? { events := events + [Deleted(ids.value.playerId, ids.value.vehicleId)]; }
      } else if code == CODE_WAIT {
        SendPacket(CODE_OK, []);
      } else if code == CODE_PING {
        SendPacket(CODE_PONG, []);
      }
    }

    /** One frame: a piece of a split packet, its end, or a packet of its own. */
    method Receive(code: byte, data: seq<byte>)
      modifies this
      ensures State() == OnFrame(old(State()), Packet(code, data))
    {
      if code == CODE_SPLIT {
        inSplit := true;
        splitBuf := splitBuf + data;
      } else if code == CODE_FINISH {
        splitBuf := splitBuf + data;
        if splitBuf != [] {
          Handle(splitBuf[0], splitBuf[1..]);
        }
        splitBuf := [];
        inSplit := false;
      } else {
        Handle(code, data);
      }
    }

    /** `stream` is everything the socket yields before it ends. */
    method Run(stream: seq<byte>)
      modifies this
      ensures State() == ReadLoop(old(State()), stream)
    {
      var rest := stream;
      while connected
        invariant ReadLoop(State(), rest) == ReadLoop(old(State()), stream)
        decreases |rest|, connected
      {
        if |rest| < 4 { break; }
        var code := rest[0];
        var size := FromLittleEndian(rest[1..4]);
        if size > 50 * 1024 * 1024 { break; }
        if |rest| < 4 + size { break; }
        var data := rest[4..4 + size];
        rest := rest[4 + size..];
        Receive(code, data);
      }
      connected := false;
      events := events + [Disconnected(ConnectionClosed)];
    }

    /** `capacity` is how many writes the new socket will take. */
    method Open(key: seq<byte>, reachable: bool, error: seq<byte>, capacity: nat)
      modifies this
      ensures State() == Connect(old(State()), key, reachable, error, capacity)
      ensures splitBuf == [] && !inSplit
    {
      if connected {
        connected := false;
        events := events + [Disconnected(ConnectionClosed)];
        events := events + [Disconnected(Requested)];
      }
      writes := capacity;
      privateKey, splitBuf, inSplit, playerId, mapName := key, [], false, 0, [];
      if reachable {
        connected := true;
      } else {
        events := events + [Connected(false, error)];
      }
    }
  }

  // ---------- the theorems ----------

  function Stream(packets: seq<Packet>): seq<byte>
  {
    if packets == [] then [] else Frame(packets[0]) + Stream(packets[1..])
  }

  ghost predicate Framable(packets: seq<Packet>)
  {
    forall i :: 0 <= i < |packets| ==> |packets[i].data| < 0x100_0000
  }

  /** Reading a stream of built frames handles exactly those frames; the size guard never fires. */
  lemma {:induction false} StreamRoundTrip(c: Client, packets: seq<Packet>)
    requires Framable(packets)
    ensures ReadLoop(c, Stream(packets)) == EndLoop(OnFrames(c, packets))
    decreases |packets|
  {
    if packets != [] && c.session.connected {
      var p, tail := packets[0], Stream(packets[1..]);
      var s := Stream(packets);
      FrameSizeIff(p, tail);
      assert s[4..4 + |p.data|] == p.data && s[4 + |p.data|..] == tail;
      assert Packet(s[0], s[4..4 + |p.data|]) == p;
      StreamRoundTrip(OnFrame(c, p), packets[1..]);
    }
  }

  predicate IsPiece(p: Packet)
  {
    p.code == CODE_SPLIT || p.code == CODE_FINISH
  }

  /** The split message carried by the pieces among `frames`. */
  function Pieces(frames: seq<Packet>): seq<byte>
  {
    if frames == [] then []
    else (if IsPiece(frames[0]) then frames[0].data else []) + Pieces(frames[1..])
  }

  function Others(frames: seq<Packet>): seq<Packet>
  {
    if frames == [] then []
    else (if IsPiece(frames[0]) then [] else [frames[0]]) + Others(frames[1..])
  }

  /** The pieces of one message, the last of them at the end, amid frames that are no pieces. */
  ghost predicate OneMessage(frames: seq<Packet>)
  {
    && frames != []
    && frames[|frames| - 1].code == CODE_FINISH
    && forall i :: 0 <= i < |frames| - 1 ==> frames[i].code != CODE_FINISH
  }

  /**
   Split reassembly is transparent: however a message is cut and whatever frames
   are interleaved, kicks among them, the session ends exactly as if the client
   had handled the interleaved frames, in order, and then the message itself once.
   If the connection lasts until then, nothing stays buffered.
   */
  lemma SplitIsTransparent(c: Client, frames: seq<Packet>, message: Packet)
    requires c.session.connected && c.splitBuf == []
    requires OneMessage(frames)
    requires Pieces(frames) == [message.code] + message.data
    ensures OnFrames(c, frames).session == HandleAll(c.session, Others(frames) + [message])
    ensures HandleAll(c.session, Others(frames)).connected ==>
              OnFrames(c, frames) == Client(HandleAll(c.session, Others(frames) + [message]), [], false)
  {
    SplitFrom(c, frames, message);
  }

  lemma OneMessageRest(frames: seq<Packet>)
    requires OneMessage(frames)
    ensures frames[0].code == CODE_FINISH ==> |frames| == 1
    ensures frames[0].code != CODE_FINISH ==> OneMessage(frames[1..])
  {
    if frames[0].code != CODE_FINISH {
      var rest := frames[1..];
      assert rest[|rest| - 1] == frames[|frames| - 1];
      forall i | 0 <= i < |rest| - 1 ensures rest[i].code != CODE_FINISH {
        assert rest[i] == frames[i + 1];
      }
    }
  }

  lemma {:induction false} SplitFrom(c: Client, frames: seq<Packet>, message: Packet)
    requires c.session.connected && OneMessage(frames)
    requires c.splitBuf + Pieces(frames) == [message.code] + message.data
    ensures OnFrames(c, frames).session == HandleAll(c.session, Others(frames) + [message])
    ensures HandleAll(c.session, Others(frames)).connected ==>
              OnFrames(c, frames) == Client(HandleAll(c.session, Others(frames) + [message]), [], false)
    decreases |frames|
  {
    var p, rest := frames[0], frames[1..];
    OneMessageRest(frames);
    if p.code == CODE_FINISH {
      FinishHandles(c, p, message);
      assert OnFrames(OnFrame(c, p), rest) == OnFrame(c, p);
    } else if p.code == CODE_SPLIT {
      Associates(c.splitBuf, p.data, Pieces(rest));
      SplitFrom(OnFrame(c, p), rest, message);
      assert Others(frames) == Others(rest);
    } else {
      assert Pieces(frames) == Pieces(rest);
      HandleFirst(c.session, p, Others(rest), [message]);
      HandleFirst(c.session, p, Others(rest), []);
      if HandlePacket(c.session, p).connected {
        SplitFrom(OnFrame(c, p), rest, message);
      } else {
        GoneStays(HandlePacket(c.session, p), Others(rest) + [message]);
        GoneStays(HandlePacket(c.session, p), Others(rest) + []);
      }
    }
  }

  lemma GoneStays(c: Session, packets: seq<Packet>)
    requires !c.connected
    ensures HandleAll(c, packets) == c
  {
  }

  lemma FinishHandles(c: Client, p: Packet, message: Packet)
    requires p.code == CODE_FINISH && c.session.connected
    requires c.splitBuf + Pieces([p]) == [message.code] + message.data
    ensures OnFrame(c, p) == Client(HandleAll(c.session, Others([p]) + [message]), [], false)
  {
    var whole := c.splitBuf + p.data;
    assert Pieces([p]) == p.data;
    assert whole[1..] == message.data;
    assert Others([p]) + [message] == [message];
    assert HandleAll(c.session, [message]) == HandlePacket(c.session, message);
  }

  lemma HandleFirst(c: Session, p: Packet, others: seq<Packet>, more: seq<Packet>)
    requires c.connected
    ensures HandleAll(c, [p] + others + more) == HandleAll(HandlePacket(c, p), others + more)
    ensures HandleAll(c, [p] + others) == HandleAll(HandlePacket(c, p), others)
  {
    assert ([p] + others + more)[1..] == others + more;
    assert ([p] + others)[1..] == others;
  }

  /** No end of a split packet from position `n` on. */
  ghost predicate NoFinish(frames: seq<Packet>, n: nat)
  {
    forall j :: n <= j < |frames| ==> frames[j].code != CODE_FINISH
  }

  /** A piece came that was not followed by an end, or none was needed. */
  ghost predicate Unfinished(open: bool, frames: seq<Packet>)
  {
    (open && NoFinish(frames, 0)) || exists i :: 0 <= i < |frames| && frames[i].code == CODE_SPLIT && NoFinish(frames, i)
  }

  lemma UnfinishedNext(open: bool, frames: seq<Packet>)
    requires frames != []
    ensures var code := frames[0].code;
            Unfinished(open, frames)
            <==> Unfinished(code == CODE_SPLIT || (open && code != CODE_FINISH), frames[1..])
  {
    var rest := frames[1..];
    forall n: nat ensures NoFinish(rest, n) <==> NoFinish(frames, n + 1) {
      assert forall j :: n <= j < |rest| ==> rest[j] == frames[j + 1];
      assert forall j :: n + 1 <= j < |frames| ==> frames[j] == rest[j - 1];
    }
    assert NoFinish(frames, 0) <==> frames[0].code != CODE_FINISH && NoFinish(frames, 1);
    forall i | 0 <= i < |frames| && frames[i].code == CODE_SPLIT && NoFinish(frames, i)
      ensures i == 0 || (rest[i - 1].code == CODE_SPLIT && NoFinish(rest, i - 1))
    {
    }
    forall i | 0 <= i < |rest| && rest[i].code == CODE_SPLIT && NoFinish(rest, i)
      ensures frames[i + 1].code == CODE_SPLIT && NoFinish(frames, i + 1)
    {
    }
  }

  /** While the connection lasts a split packet is marked as begun exactly if its end has not come. */
  lemma {:induction false} InSplitIff(c: Client, frames: seq<Packet>)
    requires OnFrames(c, frames).session.connected
    ensures OnFrames(c, frames).inSplit <==> Unfinished(c.inSplit, frames)
    decreases |frames|
  {
    if frames != [] {
      InSplitIff(OnFrame(c, frames[0]), frames[1..]);
      UnfinishedNext(c.inSplit, frames);
    }
  }

  /** The same over the wire: from the bytes of the frames to the calls of the handler. */
  lemma SplitOverTheWire(c: Client, frames: seq<Packet>, message: Packet)
    requires c.session.connected && c.splitBuf == []
    requires OneMessage(frames) && Framable(frames)
    requires Pieces(frames) == [message.code] + message.data
    ensures ReadLoop(c, Stream(frames)).session
            == EndLoop(Client(HandleAll(c.session, Others(frames) + [message]), [], false)).session
    ensures HandleAll(c.session, Others(frames)).connected ==>
              ReadLoop(c, Stream(frames))
              == EndLoop(Client(HandleAll(c.session, Others(frames) + [message]), [], false))
  {
    StreamRoundTrip(c, frames);
    SplitIsTransparent(c, frames, message);
  }

  // ---------- one packet ----------

  /** The answers to an authentication that carry a player id. */
  predicate Accepts(p: Packet)
  {
    p.code == CODE_AUTH && p.data != [] && IsDigit(p.data[0]) && Stoi(p.data).Some?
  }

  /** The code of the reply a packet asks for, if it asks for one. */
  function ReplyCode(p: Packet): Option<byte>
  {
    if p.code == CODE_MAP then Some(CODE_AUTH)
    else if Accepts(p) then Some(CODE_READY)
    else if p.code == CODE_WAIT then Some(CODE_OK)
    else if p.code == CODE_PING then Some(CODE_PONG)
    else None
  }

  /** Ids, map name and connection change only through their own packets; the key never does. */
  lemma HandleChanges(c: Session, p: Packet)
    ensures var d := HandlePacket(c, p);
            && d.privateKey == c.privateKey
            && d.mapName == (if p.code == CODE_MAP then p.data else c.mapName)
            && d.playerId == (if Accepts(p) then Stoi(p.data).value % 0x1_0000 else c.playerId)
            && (d.connected <==> c.connected && p.code != CODE_KICK && (ReplyCode(p).Some? ==> c.writes > 0))
  {
  }

  /** At most one packet is sent in reply, its code set by the request; a key is sent to a map name only. */
  lemma HandleReplies(c: Session, p: Packet)
    requires c.connected
    ensures var d, code := HandlePacket(c, p), ReplyCode(p);
            if code == None then d.sent == c.sent && d.writes == c.writes
            else if c.writes == 0 then d.sent == c.sent && !d.connected
            else d.sent == c.sent + [Packet(code.value, if p.code == CODE_MAP then c.privateKey else [])]
                 && d.writes == c.writes - 1
  {
  }

  /** Whether a packet causes a callback. */
  predicate Announces(p: Packet)
  {
    || p.code == CODE_KICK || p.code == CODE_CHAT
    || (p.code == CODE_AUTH && (Accepts(p) || p.data == [] || !IsDigit(p.data[0])))
    || (p.code == CODE_SYNC && ParseTransform(p.data).Some?)
    || (p.code == CODE_SPAWN && ToColon(p.data) < |p.data| && ParseIds(p.data[..ToColon(p.data)]).Some?)
    || (p.code == CODE_DELETE && ParseIds(p.data).Some?)
  }

  /** A packet causes one callback or none, and the callback tells what the packet says. */
  lemma HandleNotifies(c: Session, p: Packet)
    ensures var d := HandlePacket(c, p);
            if !Announces(p) then d.events == c.events
            else && |d.events| == |c.events| + 1 && d.events[..|c.events|] == c.events
                 && match d.events[|c.events|]
                    case Connected(ok, error) =>
                      p.code == CODE_AUTH && (ok <==> Accepts(p)) && error == if ok then [] else p.data
                    case Disconnected(reason) => p.code == CODE_KICK && reason == Kicked(p.data)
                    case Chat(message) => p.code == CODE_CHAT && message == p.data
                    case Moved(t) => p.code == CODE_SYNC && ParseTransform(p.data) == Some(t)
                    case Spawned(pid, vid, model) =>
                      && p.code == CODE_SPAWN && |model| < |p.data|
                      && var n := |p.data| - |model| - 1;
                         && Plain(p.data[..n]) && p.data == p.data[..n] + [COLON] + model
                         && ParseIds(p.data[..n]) == Some(Ids(pid, vid))
                    case Deleted(pid, vid) => p.code == CODE_DELETE && ParseIds(p.data) == Some(Ids(pid, vid))
  {
    if p.code == CODE_SPAWN && ToColon(p.data) < |p.data| {
      var n := ToColon(p.data);
      assert p.data == p.data[..n] + [COLON] + p.data[n + 1..];
    }
  }

  function Codes(packets: seq<Packet>): seq<byte>
  {
    if packets == [] then [] else Codes(packets[..|packets| - 1]) + [packets[|packets| - 1].code]
  }

  function ReplyCodes(packets: seq<Packet>): seq<byte>
  {
    if packets == [] then []
    else (match ReplyCode(packets[0])
          case None => []
          case Some(code) => [code]) + ReplyCodes(packets[1..])
  }

  /** Requests are answered in order, each once, as long as no kick comes and no write fails. */
  lemma {:induction false} RepliesInOrder(c: Session, packets: seq<Packet>)
    requires c.connected && c.writes >= |ReplyCodes(packets)|
    requires forall i :: 0 <= i < |packets| ==> packets[i].code != CODE_KICK
    ensures Codes(HandleAll(c, packets).sent) == Codes(c.sent) + ReplyCodes(packets)
    ensures HandleAll(c, packets).connected
    decreases |packets|
  {
    if packets == [] {
      assert Codes(c.sent) + [] == Codes(c.sent);
    } else {
      var p, d, code := packets[0], HandlePacket(c, packets[0]), ReplyCode(packets[0]);
      HandleReplies(c, p);
      HandleChanges(c, p);
      RepliesInOrder(d, packets[1..]);
      if code.Some? {
        assert (d.sent)[..|c.sent|] == c.sent;
        Associates(Codes(c.sent), [code.value], ReplyCodes(packets[1..]));
      }
    }
  }

  // ---------- the handshake ----------

  /**
   Of the packets and events since given marks, on a socket that took `capacity`
   writes: the client says it is ready only if it reported success; having reported
   success it said so, unless all the writes the socket took were used up; and
   before success it has no player id.
   */
  ghost predicate HandshakeKept(c: Session, sent: nat, events: nat, capacity: nat)
  {
    && sent <= |c.sent| && events <= |c.events|
    && |c.sent[sent..]| + c.writes == capacity
    && (Packet(CODE_READY, []) in c.sent[sent..] ==> Connected(true, []) in c.events[events..])
    && (Connected(true, []) in c.events[events..] && Packet(CODE_READY, []) !in c.sent[sent..]
        ==> |c.sent[sent..]| == capacity)
    && (Connected(true, []) !in c.events[events..] ==> c.playerId == 0)
  }

  /** A connection starts with nothing sent, no success and no player id, whatever came before. */
  lemma ConnectStartsHandshake(c: Client, key: seq<byte>, reachable: bool, error: seq<byte>, capacity: nat)
    ensures var d := Connect(c, key, reachable, error, capacity).session;
            HandshakeKept(d, |c.session.sent|, |c.session.events|, capacity)
            && d.sent == c.session.sent && Connected(true, []) !in d.events[|c.session.events|..]
  {
  }

  lemma HandleKeepsHandshake(c: Session, p: Packet, sent: nat, events: nat, capacity: nat)
    requires HandshakeKept(c, sent, events, capacity) && c.connected
    ensures HandshakeKept(HandlePacket(c, p), sent, events, capacity)
  {
    var d := HandlePacket(c, p);
    HandleReplies(c, p);
    HandleNotifies(c, p);
    HandleChanges(c, p);
    SuffixGrows(c.sent, d.sent, sent);
    SuffixGrows(c.events, d.events, events);
  }

  lemma SuffixGrows<T>(a: seq<T>, b: seq<T>, mark: nat)
    requires mark <= |a| && (b == a || (|b| == |a| + 1 && b[..|a|] == a))
    ensures mark <= |b| && b[mark..] == a[mark..] + b[|a|..]
  {
  }

  lemma FrameKeepsHandshake(c: Client, p: Packet, sent: nat, events: nat, capacity: nat)
    requires HandshakeKept(c.session, sent, events, capacity) && c.session.connected
    ensures HandshakeKept(OnFrame(c, p).session, sent, events, capacity)
  {
    var whole := c.splitBuf + p.data;
    if p.code == CODE_FINISH && whole != [] {
      HandleKeepsHandshake(c.session, Packet(whole[0], whole[1..]), sent, events, capacity);
    } else if !IsPiece(p) {
      HandleKeepsHandshake(c.session, p, sent, events, capacity);
    }
  }

  lemma {:induction false} LoopKeepsHandshake(c: Client, s: seq<byte>, sent: nat, events: nat, capacity: nat)
    requires HandshakeKept(c.session, sent, events, capacity)
    ensures HandshakeKept(ReadLoop(c, s).session, sent, events, capacity)
    decreases |s|
  {
    if !c.session.connected || |s| < 4 || FrameSize(s) > MAX_FRAME || |s| < 4 + FrameSize(s) {
      SuffixGrows(c.session.events, EndLoop(c).session.events, events);
    } else {
      var p := Packet(s[0], s[4..4 + FrameSize(s)]);
      FrameKeepsHandshake(c, p, sent, events, capacity);
      LoopKeepsHandshake(OnFrame(c, p), s[4 + FrameSize(s)..], sent, events, capacity);
    }
  }

  /** The handshake of every connection, whatever the client did before and whatever bytes it is sent. */
  lemma HandshakeHolds(c: Client, key: seq<byte>, reachable: bool, error: seq<byte>, capacity: nat, s: seq<byte>)
    ensures HandshakeKept(ReadLoop(Connect(c, key, reachable, error, capacity), s).session,
                          |c.session.sent|, |c.session.events|, capacity)
  {
    ConnectStartsHandshake(c, key, reachable, error, capacity);
    LoopKeepsHandshake(Connect(c, key, reachable, error, capacity), s, |c.session.sent|, |c.session.events|, capacity);
  }

  /** A socket that takes one write: the key goes out, success is reported, and ready is lost. */
  lemma ReadyMayFail(key: seq<byte>, mapName: seq<byte>)
    ensures var start := Session(true, 1, 0, [], key, [], []);
            var d := HandleAll(start, [Packet(CODE_MAP, mapName), Packet(CODE_AUTH, Digits(7))]);
            && d.sent == [Packet(CODE_AUTH, key)] && d.events == [Connected(true, [])]
            && d.playerId == 7 && !d.connected
  {
    StoiDigits(7);
    assert IsDigit(Digits(7)[0]);
    var c := Session(true, 1, 0, [], key, [], []);
    var first, second := Packet(CODE_MAP, mapName), Packet(CODE_AUTH, Digits(7));
    var d := HandlePacket(c, first);
    assert d == c.(mapName := mapName, writes := 0, sent := [Packet(CODE_AUTH, key)]);
    assert HandlePacket(d, second) == d.(playerId := 7, connected := false, events := [Connected(true, [])]);
    assert [first, second][1..] == [second] && [second][1..] == [];
    assert HandleAll(c, [first, second]) == HandleAll(d, [second]) == HandlePacket(d, second);
  }

  // ---------- connecting ----------

  /** What opening a connection stores and forgets: connected exactly if the server is reachable, with the new key. */
  lemma ConnectStores(c: Client, key: seq<byte>, reachable: bool, error: seq<byte>, capacity: nat)
    ensures var d := Connect(c, key, reachable, error, capacity);
            && (d.session.connected <==> reachable)
            && d.session.privateKey == key && d.session.writes == capacity
            && d.session.playerId == 0 && d.session.mapName == [] && d.session.sent == c.session.sent
            && d.splitBuf == [] && !d.inSplit
  {
  }

  /** What it reports: the end of a connection given up, then the request, then that the server was not reached. */
  lemma ConnectReports(c: Client, key: seq<byte>, reachable: bool, error: seq<byte>, capacity: nat)
    ensures Connect(c, key, reachable, error, capacity).session.events
            == c.session.events
               + (if c.session.connected then [Disconnected(ConnectionClosed), Disconnected(Requested)] else [])
               + (if reachable then [] else [Connected(false, error)])
  {
    var before := c.session.events;
    assert before + [] + [] == before;
    Associates(before, [Disconnected(ConnectionClosed)], [Disconnected(Requested)]);
  }

  /** From opening to the wire: the first map name is answered with the key handed over, and nothing else is sent. */
  lemma KeyIsSent(c: Client, key: seq<byte>, error: seq<byte>, mapName: seq<byte>, capacity: nat)
    requires capacity >= 1
    ensures var d := Connect(c, key, true, error, capacity).session;
            HandleAll(d, [Packet(CODE_MAP, mapName)]).sent == c.session.sent + [Packet(CODE_AUTH, key)]
  {
    var d := Connect(c, key, true, error, capacity).session;
    var p := Packet(CODE_MAP, mapName);
    ConnectStores(c, key, true, error, capacity);
    HandleReplies(d, p);
    assert [p][1..] == [];
    assert HandleAll(d, [p]) == HandlePacket(d, p);
  }

  /** However the stream ends, the client is disconnected after it, and its last report is that the connection closed. */
  lemma {:induction false} LoopEnds(c: Client, s: seq<byte>)
    ensures var d := ReadLoop(c, s).session;
            !d.connected && d.events != [] && d.events[|d.events| - 1] == Disconnected(ConnectionClosed)
    decreases |s|
  {
    if c.session.connected && |s| >= 4 && FrameSize(s) <= MAX_FRAME && |s| >= 4 + FrameSize(s) {
      LoopEnds(OnFrame(c, Packet(s[0], s[4..4 + FrameSize(s)])), s[4 + FrameSize(s)..]);
    }
  }

  /** The codes of the protocol as characters. */
  lemma CodeLetters()
    ensures [CODE_AUTH, CODE_KICK, CODE_CHAT, CODE_MAP, CODE_OK, CODE_PING, CODE_PONG]
            == [0x50, 0x4B, 0x43, 0x4D, 0x4F, 0x70, 0x71]
    ensures [CODE_READY, CODE_SYNC, CODE_SPAWN, CODE_DELETE, CODE_SPLIT, CODE_FINISH, CODE_WAIT]
            == [0x52, 0x54, 0x56, 0x58, 0x53, 0x46, 0x57]
  {
  }
}
