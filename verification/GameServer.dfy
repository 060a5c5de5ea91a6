/**
 The game server's handlers over its five tables: open sessions, the player of
 each session, the players, the datagram endpoints, and the vehicle table. Each
 handler is one atomic step; a disconnect it asks for runs after its own changes.
 */
module GameServer {
  import opened Bytes
  import opened Packet
  import Vehicles = VehicleSync
  import Udp = UdpServer
  import Tcp = TcpServer

  const NO_PLAYER: u16 := 0xFFFF
  const BRIDGE: string := "##ai_bridge##"
  const PING: byte := 0x10
  const PONG: byte := 0x11

  datatype Config = Config(password: string, bridgeToken: string, maxPlayers: int, vehicleLimit: int, authority: bool)

  datatype Phase = LoadingMods | Ready

  datatype Player = Player(id: u16, username: string, role: string, phase: Phase, vehicles: seq<byte>)

  /** What the JSON of an authentication request decodes to. */
  datatype AuthRequest = Malformed | Request(username: string, password: string, role: string)

  /** A control packet, decoded; `veto` is the plugin's answer, `wellFormed` whether its JSON parses. */
  datatype Control =
    | Auth(request: AuthRequest, veto: bool)
    | Spawn(wellFormed: bool)
    | Remove(payload: seq<byte>)
    | SetReady
    | Unmodelled

  datatype Tables = Tables(
    tcp: Tcp.Tcp, udp: Udp.Udp, entries: seq<Vehicles.Entry>,
    sessionToPlayer: map<u16, u16>, players: map<u16, Player>, nextPlayer: u16)

  const INITIAL := Tables(Tcp.Tcp({}, 1, []), Udp.Udp(map[], map[], []), [], map[], map[], 1)

  // ---------- player ids ----------

  /** The id handed out next: the counter, which never yields 0xFFFF. */
  function NextId(counter: u16): (pid: u16)
    ensures pid != NO_PLAYER
  {
    if counter == 0xFFFF then 1 else counter
  }

  // ---------- leaving ----------

  function OnDisconnect(s: Tables, sid: u16): Tables
  {
    if sid !in s.sessionToPlayer then s
    else
      var pid := s.sessionToPlayer[sid];
      var s1 := s.(sessionToPlayer := s.sessionToPlayer - {sid});
      if pid == NO_PLAYER then s1
      else
        var s2 := if pid !in s1.players then s1
                  else s1.(entries := Vehicles.WithoutOwner(s1.entries, pid),
                           udp := Udp.UnmapPlayer(s1.udp, pid),
                           players := s1.players - {pid});
        s2.(tcp := Tcp.SendAll(s2.tcp, Tcp.PlayerLeave(pid)))
  }

  /** A session's close: it leaves the table of sessions, then its player leaves. */
  function CloseSession(s: Tables, sid: u16): Tables
  {
    OnDisconnect(s.(tcp := Tcp.Erase(s.tcp, sid)), sid)
  }

  function Disconnect(s: Tables, sid: u16): Tables
  {
    if sid in s.tcp.sessions then CloseSession(s, sid) else s
  }

  function Send(s: Tables, sid: u16, m: Tcp.Message): Tables
  {
    s.(tcp := Tcp.Send(s.tcp, sid, m))
  }

  function SendAll(s: Tables, m: Tcp.Message): Tables
  {
    s.(tcp := Tcp.SendAll(s.tcp, m))
  }

  function Refuse(s: Tables, sid: u16, reason: Tcp.Refusal): Tables
  {
    Disconnect(Send(s, sid, Tcp.AuthError(reason)), sid)
  }

  // ---------- entering ----------

  function Register(s: Tables, sid: u16, p: Player): Tables
  {
    s.(sessionToPlayer := s.sessionToPlayer[sid := p.id], players := s.players[p.id := p],
       nextPlayer := NextId(s.nextPlayer) + 1)
  }

  /** Which refusal a request meets before a player is registered, if any. */
  function Refusal(cfg: Config, s: Tables, request: AuthRequest): Option<Tcp.Refusal>
  {
    match request
    case Malformed => Some(Tcp.InvalidJson)
    case Request(username, password, _) =>
      if username == BRIDGE then
        if !cfg.authority || password != cfg.bridgeToken then Some(Tcp.BridgeTokenMismatch) else None
      else if username == "" then Some(Tcp.UsernameRequired)
      else if cfg.password != "" && password != cfg.password then Some(Tcp.WrongPassword)
      else if |s.players| >= cfg.maxPlayers then Some(Tcp.ServerFull)
      else None
  }

  function NewPlayer(s: Tables, request: AuthRequest): (p: Player)
    requires request.Request?
    ensures p.id == NextId(s.nextPlayer) && p.username == request.username
  {
    var bridge := request.username == BRIDGE;
    Player(NextId(s.nextPlayer), request.username, if bridge then "bridge" else request.role,
           if bridge then Ready else LoadingMods, [])
  }

  /** A player is told its id and then how many players there are, a bridge only its id. */
  function Welcome(s: Tables, sid: u16, p: Player): Tables
  {
    var s1 := Send(s, sid, Tcp.AuthOk(p.id));
    if p.username == BRIDGE then s1 else Send(s1, sid, Tcp.ServerInfo(|s.players|))
  }

  /** Malformed text and an empty name leave the session open; any other refusal closes it. */
  predicate Closes(reason: Tcp.Refusal)
  {
    reason != Tcp.InvalidJson && reason != Tcp.UsernameRequired
  }

  function HandleAuth(cfg: Config, s: Tables, sid: u16, request: AuthRequest, veto: bool): Tables
  {
    match Refusal(cfg, s, request)
    case Some(reason) =>
      if Closes(reason) then Refuse(s, sid, reason) else Send(s, sid, Tcp.AuthError(reason))
    case None =>
      var p := NewPlayer(s, request);
      var s1 := Register(s, sid, p);
      if veto && request.username != BRIDGE then
        Refuse(s1.(players := s1.players - {p.id}, sessionToPlayer := s1.sessionToPlayer - {sid}), sid, Tcp.Vetoed)
      else Welcome(s1, sid, p)
  }

  // ---------- playing ----------

  function HandleReady(s: Tables, pid: u16): Tables
  {
    if pid !in s.players then s
    else SendAll(s.(players := s.players[pid := s.players[pid].(phase := Ready)]), Tcp.PlayerJoin(pid))
  }

  function AddVehicle(vehicles: seq<byte>): seq<byte>
  {
    vehicles + [|vehicles| % 0x100]
  }

  function DropVehicle(vehicles: seq<byte>, vid: byte): seq<byte>
  {
    Filter((v: byte) => v != vid, vehicles)
  }

  function HandleSpawn(cfg: Config, s: Tables, pid: u16, wellFormed: bool): Tables
  {
    if !wellFormed || pid !in s.players || |s.players[pid].vehicles| >= cfg.vehicleLimit then s
    else
      var p := s.players[pid];
      SendAll(s.(players := s.players[pid := p.(vehicles := AddVehicle(p.vehicles))]),
              Tcp.VehicleSpawn(pid, |p.vehicles| % 0x100))
  }

  function HandleRemove(s: Tables, pid: u16, payload: seq<byte>): Tables
  {
    if |payload| < 1 || pid !in s.players then s
    else
      var p := s.players[pid];
      SendAll(s.(entries := Vehicles.WithoutKey(s.entries, Vehicles.Key(pid, payload[0])),
                 players := s.players[pid := p.(vehicles := DropVehicle(p.vehicles, payload[0]))]),
              Tcp.VehicleDelete(pid, payload[0]))
  }

  function OnControl(cfg: Config, s: Tables, sid: u16, packet: Control): Tables
  {
    var pid := if sid in s.sessionToPlayer then s.sessionToPlayer[sid] else NO_PLAYER;
    match packet
    case Auth(request, veto) => HandleAuth(cfg, s, sid, request, veto)
    case Spawn(wellFormed) => if pid != NO_PLAYER then HandleSpawn(cfg, s, pid, wellFormed) else s
    case Remove(payload) => if pid != NO_PLAYER then HandleRemove(s, pid, payload) else s
    case SetReady => if pid != NO_PLAYER then HandleReady(s, pid) else s
    case Unmodelled => s
  }

  /** A datagram as the handler sees it; `state` is what its payload reads as, if it is long enough. */
  datatype Decoded =
    | Ping(sequence: u32)
    | VehicleData(raw: seq<byte>, markedAsAI: bool, state: Option<VehicleState>)
    | Unknown

  /**
   What the handler reads of the receive buffer whoever the sender is: a header, and
   of a vehicle update the payload it announces, up to the size of a state. The
   datagram is at the front of the buffer; behind it lies what earlier ones left there.
   */
  ghost predicate Readable(buffer: seq<byte>)
  {
    && |buffer| >= HEADER_SIZE
    && var h := ParseHeader(buffer).value;
       h.kind == VEHICLE_UPDATE ==>
         |buffer| >= HEADER_SIZE + if h.payloadLen < STATE_SIZE then h.payloadLen else STATE_SIZE
  }

  /** Everything the datagram announces is in the buffer. */
  ghost predicate Whole(buffer: seq<byte>)
  {
    |buffer| >= HEADER_SIZE && |buffer| >= HEADER_SIZE + ParseHeader(buffer).value.payloadLen
  }

  /** Bit 0 of a vehicle update's flags marks AI traffic; the raw packet is taken as far as the buffer reaches. */
  function Decode(buffer: seq<byte>): Decoded
    requires Readable(buffer)
  {
    var h := ParseHeader(buffer).value;
    if h.kind == PING then Ping(h.sequence)
    else if h.kind != VEHICLE_UPDATE then Unknown
    else
      var payload := Payload(buffer);
      VehicleData(buffer[..HEADER_SIZE + |payload|], |payload| >= 2 && payload[1] % 2 == 1, ParseState(payload))
  }

  /** The state a buffer yields, if it yields one. */
  function StateOf(buffer: seq<byte>): Option<VehicleState>
    requires Readable(buffer)
  {
    match Decode(buffer)
    case VehicleData(_, _, state) => state
    case _ => None
  }

  lemma HeaderAlone(d: seq<byte>, tail: seq<byte>)
    requires |d| >= HEADER_SIZE
    ensures ParseHeader(d + tail) == ParseHeader(d)
  {
    assert (d + tail)[..HEADER_SIZE] == d[..HEADER_SIZE];
  }

  /** A datagram as long as it announces is handled by itself, whatever lies behind it. */
  lemma CompleteIsDecodedAlone(d: seq<byte>, tail: seq<byte>)
    requires Whole(d)
    ensures Readable(d) && Readable(d + tail) && Decode(d + tail) == Decode(d)
  {
    HeaderAlone(d, tail);
    var n := HEADER_SIZE + ParseHeader(d).value.payloadLen;
    assert (d + tail)[..n] == d[..n];
    assert (d + tail)[HEADER_SIZE..n] == d[HEADER_SIZE..n];
  }

  function Fill(b: byte, n: nat): (s: seq<byte>)
    ensures |s| == n && forall i :: 0 <= i < n ==> s[i] == b
  {
    seq(n, _ => b)
  }

  /** What is decoded is the same for any two tails. */
  ghost predicate DecodedAlone(d: seq<byte>)
  {
    forall a: seq<byte>, b: seq<byte> :: |a| == |b| && Readable(d + a) && Readable(d + b) ==>
      Decode(d + a) == Decode(d + b)
  }

  /** Exactly when what is decoded depends on the datagram alone: it is no vehicle update, or it is complete. */
  lemma DecodedAloneIff(d: seq<byte>)
    requires |d| >= HEADER_SIZE
    ensures DecodedAlone(d) <==> ParseHeader(d).value.kind != VEHICLE_UPDATE || Whole(d)
  {
    var h := ParseHeader(d).value;
    if Whole(d) {
      forall a: seq<byte>, b: seq<byte> | |a| == |b| && Readable(d + a) && Readable(d + b)
        ensures Decode(d + a) == Decode(d + b)
      {
        CompleteIsDecodedAlone(d, a);
        CompleteIsDecodedAlone(d, b);
      }
    } else if h.kind == VEHICLE_UPDATE {
      var a, b := Fill(0, h.payloadLen), Fill(1, h.payloadLen);
      RawBehindDatagram(d, a);
      RawBehindDatagram(d, b);
      assert Decode(d + a).raw[|d|] == 0 && Decode(d + b).raw[|d|] == 1;
    } else {
      forall a: seq<byte>, b: seq<byte> | |a| == |b| && Readable(d + a) && Readable(d + b)
        ensures Decode(d + a) == Decode(d + b)
      {
        HeaderAlone(d, a);
        HeaderAlone(d, b);
      }
    }
  }

  lemma RawBehindDatagram(d: seq<byte>, tail: seq<byte>)
    requires |d| >= HEADER_SIZE && !Whole(d)
    requires ParseHeader(d).value.kind == VEHICLE_UPDATE && |tail| == ParseHeader(d).value.payloadLen
    ensures Readable(d + tail) && Decode(d + tail).VehicleData?
    ensures |d| < |Decode(d + tail).raw| && Decode(d + tail).raw[|d|] == tail[0]
  {
    HeaderAlone(d, tail);
  }

  /** The state yielded is the same for any two tails. */
  ghost predicate StateAlone(d: seq<byte>)
  {
    forall a: seq<byte>, b: seq<byte> :: |a| == |b| && Readable(d + a) && Readable(d + b) ==>
      StateOf(d + a) == StateOf(d + b)
  }

  /**
   Exactly when the state a datagram yields depends on that datagram alone: it is no
   vehicle update, or announces less than a state, or its own bytes hold a whole state.
   */
  lemma StateAloneIff(d: seq<byte>)
    requires |d| >= HEADER_SIZE
    ensures StateAlone(d)
            <==> var h := ParseHeader(d).value;
                 h.kind != VEHICLE_UPDATE || h.payloadLen < STATE_SIZE || |d| >= HEADER_SIZE + STATE_SIZE
  {
    var h := ParseHeader(d).value;
    if h.kind == VEHICLE_UPDATE && h.payloadLen >= STATE_SIZE && |d| < HEADER_SIZE + STATE_SIZE {
      var a, b := Fill(0, STATE_SIZE), Fill(1, STATE_SIZE);
      HeaderAlone(d, a);
      HeaderAlone(d, b);
      var n := HEADER_SIZE + STATE_SIZE - |d|;
      assert a[..n][0] == 0 && b[..n][0] == 1;
      CutShowsStaleBytes(d, a, b);
      assert Readable(d + a) && Readable(d + b) && StateOf(d + a) != StateOf(d + b);
    } else {
      forall a: seq<byte>, b: seq<byte> | |a| == |b| && Readable(d + a) && Readable(d + b)
        ensures StateOf(d + a) == StateOf(d + b)
      {
        StateOfTail(d, a);
        StateOfTail(d, b);
      }
    }
  }

  lemma StateOfTail(d: seq<byte>, tail: seq<byte>)
    requires |d| >= HEADER_SIZE && Readable(d + tail)
    requires var h := ParseHeader(d).value;
             h.kind != VEHICLE_UPDATE || h.payloadLen < STATE_SIZE || |d| >= HEADER_SIZE + STATE_SIZE
    ensures var h := ParseHeader(d).value;
            StateOf(d + tail)
            == if h.kind == VEHICLE_UPDATE && h.payloadLen >= STATE_SIZE then
                 Some(ReadState(d[HEADER_SIZE..HEADER_SIZE + STATE_SIZE], STATE_WIDTHS))
               else None
  {
    HeaderAlone(d, tail);
    var h := ParseHeader(d).value;
    if h.kind == VEHICLE_UPDATE && h.payloadLen >= STATE_SIZE {
      assert Payload(d + tail)[..STATE_SIZE] == d[HEADER_SIZE..HEADER_SIZE + STATE_SIZE];
    }
  }

  /** A vehicle update cut short inside its state: other stale bytes are read as another state. */
  lemma CutShowsStaleBytes(d: seq<byte>, a: seq<byte>, b: seq<byte>)
    requires HEADER_SIZE <= |d| < HEADER_SIZE + STATE_SIZE && |a| == |b|
    requires var h := ParseHeader(d).value; h.kind == VEHICLE_UPDATE && h.payloadLen >= STATE_SIZE
    requires |d| + |a| >= HEADER_SIZE + STATE_SIZE
    requires var n := HEADER_SIZE + STATE_SIZE - |d|; a[..n] != b[..n]
    ensures Readable(d + a) && Readable(d + b) && StateOf(d + a) != StateOf(d + b)
  {
    var n := HEADER_SIZE + STATE_SIZE - |d|;
    StateBehindHeader(d, a);
    StateBehindHeader(d, b);
    if d[HEADER_SIZE..] + a[..n] == d[HEADER_SIZE..] + b[..n] {
      FrontOf(d[HEADER_SIZE..], a[..n]);
      FrontOf(d[HEADER_SIZE..], b[..n]);
      assert false;
    }
  }

  /** The 66 bytes a state is read from start behind the header and may pass the end of the datagram. */
  lemma StateBehindHeader(d: seq<byte>, tail: seq<byte>)
    requires HEADER_SIZE <= |d| < HEADER_SIZE + STATE_SIZE <= |d| + |tail|
    requires var h := ParseHeader(d).value; h.kind == VEHICLE_UPDATE && h.payloadLen >= STATE_SIZE
    ensures Readable(d + tail) && StateOf(d + tail).Some?
    ensures EncodeState(StateOf(d + tail).value) == d[HEADER_SIZE..] + tail[..HEADER_SIZE + STATE_SIZE - |d|]
  {
    HeaderAlone(d, tail);
    var payload := Payload(d + tail);
    StateReadsEveryByte(payload);
    assert payload[..STATE_SIZE] == (d + tail)[HEADER_SIZE..HEADER_SIZE + STATE_SIZE];
    assert (d + tail)[HEADER_SIZE..HEADER_SIZE + STATE_SIZE] == d[HEADER_SIZE..] + tail[..HEADER_SIZE + STATE_SIZE - |d|];
  }

  /** `fromAuthority` says whether the sender is the AI authority at that moment. */
  function OnDatagram(s: Tables, from: Udp.Endpoint, d: Decoded, fromAuthority: bool): Tables
  {
    var pid := Udp.PlayerFromEndpoint(s.udp, from);
    match d
    case Ping(sequence) => s.(udp := s.udp.(sent := s.udp.sent + [Udp.Reply(from, PONG, sequence)]))
    case Unknown => s
    case VehicleData(raw, markedAsAI, state) =>
      if pid == NO_PLAYER then s
      else if fromAuthority && markedAsAI then
        s.(udp := s.udp.(sent := s.udp.sent + [Udp.Relay(raw, pid, Udp.Recipients(s.udp, pid))]))
      else if state == None then s
      else s.(entries := Vehicles.Updated(s.entries, pid, state.value))
  }

  /** An update another client packed reaches the handler with its state intact. */
  lemma UpdateIsDecoded(sender: u16, sequence: u32, v: VehicleState)
    ensures var data := VehicleUpdate(sender, sequence, v);
            Readable(data) && Decode(data) == VehicleData(data, v.vflags % 2 == 1, Some(v))
  {
    var data := VehicleUpdate(sender, sequence, v);
    PacketRoundTrip(VEHICLE_UPDATE, sender, sequence, EncodeState(v), 0);
    assert data[..|data|] == data;
    StateRoundTrip(v, []);
    assert EncodeState(v) + [] == EncodeState(v);
    StateLayoutBytes(v);
  }

  /**
   A ping, whoever sent it and whatever it carries, is answered with its own sequence
   number, and changes nothing else.
   */
  lemma PingIsAnswered(s: Tables, from: Udp.Endpoint, sender: u16, sequence: u32, payload: seq<byte>, flags: byte,
                       tail: seq<byte>, fromAuthority: bool)
    requires |payload| < 0x1_0000
    ensures var buffer := EncodePacket(0x10, sender, sequence, payload, flags) + tail;
            && Readable(buffer)
            && OnDatagram(s, from, Decode(buffer), fromAuthority)
               == s.(udp := s.udp.(sent := s.udp.sent + [Udp.Reply(from, 0x11, sequence)]))
  {
    var data := EncodePacket(0x10, sender, sequence, payload, flags);
    PacketRoundTrip(0x10, sender, sequence, payload, flags);
    HeaderAlone(data, tail);
  }

  /** Any update at the front of the buffer is what the handler sees, whatever lies behind it. */
  lemma UpdateIsRead(sender: u16, sequence: u32, payload: seq<byte>, flags: byte, tail: seq<byte>)
    requires |payload| < 0x1_0000
    ensures var data := EncodePacket(0x08, sender, sequence, payload, flags);
            && Readable(data + tail)
            && Decode(data + tail) == VehicleData(data, |payload| >= 2 && payload[1] % 2 == 1, ParseState(payload))
  {
    hide ParseState;
    var data := EncodePacket(0x08, sender, sequence, payload, flags);
    PacketRoundTrip(0x08, sender, sequence, payload, flags);
    assert data[..|data|] == data;
    CompleteIsDecodedAlone(data, tail);
  }

  lemma StateIsTaken(s: Tables, from: Udp.Endpoint, raw: seq<byte>, marked: bool, v: VehicleState)
    requires Vehicles.Distinct(s.entries)
    requires from in s.udp.toPlayer && s.udp.toPlayer[from] != NO_PLAYER
    ensures var pid, t := s.udp.toPlayer[from], OnDatagram(s, from, VehicleData(raw, marked, Some(v)), false);
            t == s.(entries := t.entries) && StateIsStored(s.entries, t.entries, Vehicles.Key(pid, v.vehicleId), v)
  {
    Vehicles.UpdateRefines(s.entries, s.udp.toPlayer[from], v);
  }

  /**
   What a vehicle update does, from its bytes to the tables, whatever lies behind it in
   the buffer: of an unknown sender nothing; marked as AI traffic and from the authority
   it is relayed as it came to everyone mapped but the sender; else, if it holds a state,
   that becomes the state of the sender's vehicle, whatever sender it names.
   */
  lemma UpdateIsHandled(s: Tables, from: Udp.Endpoint, sender: u16, sequence: u32, payload: seq<byte>, flags: byte,
                        tail: seq<byte>, fromAuthority: bool)
    requires Vehicles.Distinct(s.entries) && |payload| < 0x1_0000
    ensures var data := EncodePacket(0x08, sender, sequence, payload, flags);
            && Readable(data + tail)
            && var t := OnDatagram(s, from, Decode(data + tail), fromAuthority);
               if from !in s.udp.toPlayer || s.udp.toPlayer[from] == 0xFFFF then t == s
               else
                 var pid := s.udp.toPlayer[from];
                 if fromAuthority && |payload| >= 2 && payload[1] % 2 == 1 then
                   t == s.(udp := s.udp.(sent := s.udp.sent + [Udp.Relay(data, pid, s.udp.toEp - {pid})]))
                 else if |payload| < 66 then t == s
                 else
                   var v := ParseState(payload).value;
                   && EncodeState(v) == payload[..66] && t == s.(entries := t.entries)
                   && StateIsStored(s.entries, t.entries, Vehicles.Key(pid, v.vehicleId), v)
  {
    hide Decode, Readable, EncodePacket, EncodeState, ParseState, StateIsStored, Vehicles.Distinct, Vehicles.Updated;
    UpdateIsRead(sender, sequence, payload, flags, tail);
    var pid := Udp.PlayerFromEndpoint(s.udp, from);
    if pid != NO_PLAYER {
      var data := EncodePacket(0x08, sender, sequence, payload, flags);
      assert Udp.Recipients(s.udp, pid) == s.udp.toEp - {pid};
      if |payload| >= 66 {
        StateReadsEveryByte(payload);
        StateIsTaken(s, from, data, |payload| >= 2 && payload[1] % 2 == 1, ParseState(payload).value);
      }
    }
  }

  /** One assignment in the table: the state, marked for the next tick, its number as it was. */
  ghost predicate StateIsStored(before: seq<Vehicles.Entry>, after: seq<Vehicles.Entry>, k: Vehicles.Key, v: VehicleState)
  {
    var cells := Vehicles.Table(before);
    Vehicles.Table(after) == cells[k := Vehicles.Cell(v, if k in cells then cells[k].sequence else 0, true)]
  }

  function Tick(s: Tables): Tables
  {
    s.(entries := Vehicles.AllSent(s.entries), udp := Udp.SendSync(s.udp, Vehicles.Emissions(s.entries)))
  }

  function KickSession(s: Tables, sid: u16): Tables
  {
    Disconnect(Send(s, sid, Tcp.KickNotice), sid)
  }

  ghost function Kick(s: Tables, pid: u16): Tables
  {
    if sid :| sid in s.sessionToPlayer && s.sessionToPlayer[sid] == pid then KickSession(s, sid) else s
  }

  // ---------- the object ----------

  class GameServer {
    const cfg: Config
    const tcp: Tcp.TCPServer
    const udp: Udp.UDPServer
    const sync: Vehicles.VehicleSync
    var sessionToPlayer: map<u16, u16>
    var players: map<u16, Player>
    var nextPlayer: u16

    constructor (cfg: Config)
      ensures State() == INITIAL && this.cfg == cfg
      ensures fresh(tcp) && fresh(udp) && fresh(sync)
    {
      this.cfg := cfg;
      tcp := new Tcp.TCPServer();
      udp := new Udp.UDPServer();
      sync := new Vehicles.VehicleSync();
      sessionToPlayer, players, nextPlayer := map[], map[], 1;
    }

    function State(): Tables
      reads this, tcp, udp, sync
    {
      Tables(tcp.State(), udp.State(), sync.entries, sessionToPlayer, players, nextPlayer)
    }

    method OnAccept()
      modifies tcp
      ensures State() == old(State()).(tcp := Tcp.Accept(old(State()).tcp))
    {
      var _ := tcp.AcceptSession();
    }

    method PlayerLeft(sid: u16)
      modifies this, tcp, udp, sync
      ensures State() == OnDisconnect(old(State()), sid)
    {
      if sid !in sessionToPlayer { return; }
      var pid := sessionToPlayer[sid];
      sessionToPlayer := sessionToPlayer - {sid};
      if pid == NO_PLAYER { return; }
      if pid in players {
        sync.OnPlayerDisconnect(pid);
        udp.Unmap(pid);
        players := players - {pid};
      }
      tcp.SendToAll(Tcp.PlayerLeave(pid));
    }

    method OnSessionClose(sid: u16)
      modifies this, tcp, udp, sync
      ensures State() == CloseSession(old(State()), sid)
    {
      tcp.EraseSession(sid);
      PlayerLeft(sid);
    }

    method DisconnectSession(sid: u16)
      modifies this, tcp, udp, sync
      ensures State() == Disconnect(old(State()), sid)
    {
      if sid in tcp.sessions { OnSessionClose(sid); }
    }

    method AllocPlayerID() returns (pid: u16)
      modifies this`nextPlayer
      ensures pid == NextId(old(nextPlayer)) && nextPlayer == pid + 1
    {
      if nextPlayer == 0xFFFF { nextPlayer := 1; }
      pid := nextPlayer;
      nextPlayer := nextPlayer + 1;
    }

    method Reject(sid: u16, reason: Tcp.Refusal)
      modifies this, tcp, udp, sync
      ensures State() == Refuse(old(State()), sid, reason)
    {
      tcp.SendTo(sid, Tcp.AuthError(reason));
      DisconnectSession(sid);
    }

    method Authenticate(sid: u16, request: AuthRequest, veto: bool)
      modifies this, tcp, udp, sync
      ensures State() == HandleAuth(cfg, old(State()), sid, request, veto)
    {
      if request.Malformed? {
        tcp.SendTo(sid, Tcp.AuthError(Tcp.InvalidJson));
        return;
      }
      var username, password := request.username, request.password;
      if username == BRIDGE {
        if !cfg.authority || password != cfg.bridgeToken {
          Reject(sid, Tcp.BridgeTokenMismatch);
          return;
        }
        var pid := AllocPlayerID();
        sessionToPlayer := sessionToPlayer[sid := pid];
        players := players[pid := Player(pid, BRIDGE, "bridge", Ready, [])];
        tcp.SendTo(sid, Tcp.AuthOk(pid));
        return;
      }
      if username == "" {
        tcp.SendTo(sid, Tcp.AuthError(Tcp.UsernameRequired));
        return;
      }
      if cfg.password != "" && password != cfg.password {
        Reject(sid, Tcp.WrongPassword);
        return;
      }
      if |players| >= cfg.maxPlayers {
        Reject(sid, Tcp.ServerFull);
        return;
      }
      var pid := AllocPlayerID();
      sessionToPlayer := sessionToPlayer[sid := pid];
      players := players[pid := Player(pid, username, request.role, LoadingMods, [])];
      if veto {
        players := players - {pid};
        sessionToPlayer := sessionToPlayer - {sid};
        Reject(sid, Tcp.Vetoed);
        return;
      }
      tcp.SendTo(sid, Tcp.AuthOk(pid));
      tcp.SendTo(sid, Tcp.ServerInfo(|players|));
    }

    method PlayerReady(pid: u16)
      modifies this`players, tcp
      ensures State() == HandleReady(old(State()), pid)
    {
      if pid !in players { return; }
      players := players[pid := players[pid].(phase := Ready)];
      tcp.SendToAll(Tcp.PlayerJoin(pid));
    }

    method VehicleSpawned(pid: u16, wellFormed: bool)
      modifies this`players, tcp
      ensures State() == HandleSpawn(cfg, old(State()), pid, wellFormed)
    {
      if !wellFormed { return; }
      if pid !in players || |players[pid].vehicles| >= cfg.vehicleLimit { return; }
      var p := players[pid];
      var vid: byte := |p.vehicles| % 0x100;
      players := players[pid := p.(vehicles := p.vehicles + [vid])];
      tcp.SendToAll(Tcp.VehicleSpawn(pid, vid));
    }

    method VehicleDeleted(pid: u16, payload: seq<byte>)
      modifies this`players, tcp, sync
      ensures State() == HandleRemove(old(State()), pid, payload)
    {
      if |payload| < 1 { return; }
      var vid := payload[0];
      if pid !in players { return; }
      sync.OnVehicleDelete(pid, vid);
      var p := players[pid];
      players := players[pid := p.(vehicles := DropVehicle(p.vehicles, vid))];
      tcp.SendToAll(Tcp.VehicleDelete(pid, vid));
    }

    method OnTCPPacket(sid: u16, packet: Control)
      modifies this, tcp, udp, sync
      ensures State() == OnControl(cfg, old(State()), sid, packet)
    {
      var pid := NO_PLAYER;
      if sid in sessionToPlayer { pid := sessionToPlayer[sid]; }
      match packet
      case Auth(request, veto) => Authenticate(sid, request, veto);
      case Spawn(wellFormed) => if pid != NO_PLAYER { VehicleSpawned(pid, wellFormed); }
      case Remove(payload) => if pid != NO_PLAYER { VehicleDeleted(pid, payload); }
      case SetReady => if pid != NO_PLAYER { PlayerReady(pid); }
      case Unmodelled =>
    }

    method OnUDPPacket(from: Udp.Endpoint, buffer: seq<byte>, fromAuthority: bool)
      requires Readable(buffer)
      requires fromAuthority && Decode(buffer).VehicleData? && Decode(buffer).markedAsAI ==> Whole(buffer)
      modifies udp, sync
      ensures State() == OnDatagram(old(State()), from, Decode(buffer), fromAuthority)
    {
      var d := Decode(buffer);
      HandleDatagram(from, d, fromAuthority);
    }

    method HandleDatagram(from: Udp.Endpoint, d: Decoded, fromAuthority: bool)
      modifies udp, sync
      ensures State() == OnDatagram(old(State()), from, d, fromAuthority)
    {
      if d.Ping? {
        udp.Answer(from, PONG, d.sequence);
        return;
      }
      var pid := Udp.PlayerFromEndpoint(udp.State(), from);
      if pid == NO_PLAYER { return; }
      if d.VehicleData? {
        if fromAuthority && d.markedAsAI {
          udp.SendAllRaw(d.raw, pid);
          return;
        }
        if d.state == None { return; }
        sync.OnVehicleUpdate(pid, d.state.value);
      }
    }

    method SyncTick()
      modifies udp, sync
      ensures State() == Tick(old(State()))
    {
      var ms := sync.BroadcastAll();
      udp.SendAllSync(ms);
    }

    /** Walks the sessions in no particular order until one of the player's is found. */
    method KickPlayer(pid: u16)
      modifies this, tcp, udp, sync
      ensures (forall sid :: sid in old(sessionToPlayer) ==> old(sessionToPlayer)[sid] != pid)
                ==> State() == old(State())
      ensures (exists sid :: sid in old(sessionToPlayer) && old(sessionToPlayer)[sid] == pid)
                ==> exists sid :: sid in old(sessionToPlayer) && old(sessionToPlayer)[sid] == pid
                                  && State() == KickSession(old(State()), sid)
    {
      var todo := sessionToPlayer.Keys;
      while todo != {}
        invariant todo <= sessionToPlayer.Keys
        invariant forall sid :: sid in sessionToPlayer && sid !in todo ==> sessionToPlayer[sid] != pid
        invariant State() == old(State())
        decreases todo
      {
        var sid :| sid in todo;
        if sessionToPlayer[sid] == pid {
          tcp.SendTo(sid, Tcp.KickNotice);
          DisconnectSession(sid);
          return;
        }
        todo := todo - {sid};
      }
    }
  }
}
