/** Whole runs of the game server, and the invariant that ties its five tables together. */
module Lifecycle {
  import opened Bytes
  import opened Packet
  import opened GameServer
  import Vehicles = VehicleSync
  import Udp = UdpServer
  import Tcp = TcpServer

  datatype Op =
    | Accept
    | Packet(sid: u16, control: Control)
    | Datagram(from: Udp.Endpoint, decoded: Decoded, fromAuthority: bool)
    | MapPlayer(pid: u16, ep: Udp.Endpoint)
    | KickPlayer(pid: u16)
    | Close(sid: u16)
    | SyncTick

  /**
   What the code relies on without checking it. An accepted authentication needs
   a session without a player and an id not in use, and unless a plugin vetoes it
   the session has to be still open; a mapping needs a live player, and neither end
   mapped to something else.
   */
  ghost predicate Assumed(cfg: Config, s: Tables, op: Op)
  {
    match op
    case Packet(sid, Auth(request, veto)) =>
      Refusal(cfg, s, request) == None ==> Admissible(s, sid, veto && request.username != BRIDGE)
    case MapPlayer(pid, ep) =>
      && pid in s.players
      && (pid in s.udp.toEp ==> s.udp.toEp[pid] == ep) && (ep in s.udp.toPlayer ==> s.udp.toPlayer[ep] == pid)
    case _ => true
  }

  predicate Admissible(s: Tables, sid: u16, vetoed: bool)
  {
    sid !in s.sessionToPlayer && NextId(s.nextPlayer) !in s.players && (vetoed || sid in s.tcp.sessions)
  }

  /** The step hands out a player id: its request meets no refusal. */
  ghost predicate HandsOut(cfg: Config, s: Tables, op: Op)
  {
    op.Packet? && op.control.Auth? && Refusal(cfg, s, op.control.request) == None
  }

  /** The step accepts a player: it hands out an id, and no plugin takes it back. */
  ghost predicate Admits(cfg: Config, s: Tables, op: Op)
  {
    HandsOut(cfg, s, op) && !(op.control.veto && op.control.request.username != BRIDGE)
  }

  ghost function Step(cfg: Config, s: Tables, op: Op): Tables
  {
    match op
    case Accept => s.(tcp := Tcp.Accept(s.tcp))
    case Packet(sid, control) => OnControl(cfg, s, sid, control)
    case Datagram(from, decoded, fromAuthority) => OnDatagram(s, from, decoded, fromAuthority)
    case MapPlayer(pid, ep) => s.(udp := Udp.MapPlayer(s.udp, pid, ep))
    case KickPlayer(pid) => Kick(s, pid)
    case Close(sid) => CloseSession(s, sid)
    case SyncTick => Tick(s)
  }

  /** The server after a run from its initial state. */
  ghost function After(cfg: Config, ops: seq<Op>): Tables
  {
    if ops == [] then INITIAL else Step(cfg, After(cfg, ops[..|ops| - 1]), ops[|ops| - 1])
  }

  /** Every step of the run met the assumptions. */
  ghost predicate Legal(cfg: Config, ops: seq<Op>)
  {
    ops == [] ||
    var before, op := ops[..|ops| - 1], ops[|ops| - 1];
    Legal(cfg, before) && Assumed(cfg, After(cfg, before), op)
  }

  lemma OneMoreStep(cfg: Config, ops: seq<Op>, op: Op)
    ensures After(cfg, ops + [op]) == Step(cfg, After(cfg, ops), op)
    ensures Legal(cfg, ops + [op]) <==> Legal(cfg, ops) && Assumed(cfg, After(cfg, ops), op)
  {
    assert (ops + [op])[..|ops|] == ops;
  }

  // ---------- the invariant ----------

  ghost predicate SessionsMatch(s: Tables)
  {
    && (forall sid :: sid in s.sessionToPlayer ==> sid in s.tcp.sessions && s.sessionToPlayer[sid] in s.players)
    && (forall a, b :: a in s.sessionToPlayer && b in s.sessionToPlayer && a != b
                       ==> s.sessionToPlayer[a] != s.sessionToPlayer[b])
    && (forall pid :: pid in s.players ==> exists sid :: sid in s.sessionToPlayer && s.sessionToPlayer[sid] == pid)
  }

  ghost predicate VehiclesMatch(cfg: Config, vehicles: seq<byte>)
  {
    0 <= cfg.vehicleLimit <= 0x100 ==>
      && |vehicles| <= cfg.vehicleLimit
      && forall i :: 0 <= i < |vehicles| ==> vehicles[i] < cfg.vehicleLimit
  }

  ghost predicate PlayersMatch(cfg: Config, s: Tables)
  {
    && NO_PLAYER !in s.players
    && forall pid :: pid in s.players ==> s.players[pid].id == pid && VehiclesMatch(cfg, s.players[pid].vehicles)
  }

  ghost predicate EndpointsMatch(s: Tables)
  {
    && Udp.Inverse(s.udp)
    && forall pid :: pid in s.udp.toEp ==> pid in s.players
  }

  ghost predicate EntriesMatch(s: Tables)
  {
    && Vehicles.Distinct(s.entries)
    && forall e :: e in s.entries ==> e.owner in s.players
  }

  /**
   Sessions and players correspond one to one, over open sessions only; endpoints
   and vehicle entries belong to live players.
   */
  ghost predicate Inv(cfg: Config, s: Tables)
  {
    SessionsMatch(s) && PlayersMatch(cfg, s) && EndpointsMatch(s) && EntriesMatch(s)
  }

  /** The player appears in none of the tables. */
  ghost predicate Gone(s: Tables, pid: u16)
  {
    && pid !in s.players
    && (forall sid :: sid in s.sessionToPlayer ==> s.sessionToPlayer[sid] != pid)
    && pid !in s.udp.toEp
    && (forall ep :: ep in s.udp.toPlayer ==> s.udp.toPlayer[ep] != pid)
    && (forall e :: e in s.entries ==> e.owner != pid)
  }

  // ---------- leaving ----------

  lemma CloseKeepsInv(cfg: Config, s: Tables, sid: u16)
    requires Inv(cfg, s)
    ensures Inv(cfg, CloseSession(s, sid))
    ensures sid !in CloseSession(s, sid).tcp.sessions
    ensures sid in s.sessionToPlayer ==> Gone(CloseSession(s, sid), s.sessionToPlayer[sid])
    ensures CloseSession(s, sid).nextPlayer == s.nextPlayer
  {
    if sid in s.sessionToPlayer {
      var pid, t := s.sessionToPlayer[sid], CloseSession(s, sid);
      LeaveKeepsSessions(s, t, sid, pid);
      Udp.UnmapPlayerForgets(s.udp, pid);
      LeaveKeepsEntries(s, t, pid);
    }
  }

  lemma LeaveKeepsSessions(s: Tables, t: Tables, sid: u16, pid: u16)
    requires SessionsMatch(s) && sid in s.sessionToPlayer && s.sessionToPlayer[sid] == pid
    requires t.sessionToPlayer == s.sessionToPlayer - {sid} && t.players == s.players - {pid}
    requires t.tcp.sessions == s.tcp.sessions - {sid}
    ensures SessionsMatch(t) && forall a :: a in t.sessionToPlayer ==> t.sessionToPlayer[a] != pid
  {
    forall p | p in t.players
      ensures exists a :: a in t.sessionToPlayer && t.sessionToPlayer[a] == p
    {
      var a :| a in s.sessionToPlayer && s.sessionToPlayer[a] == p;
      assert a in t.sessionToPlayer;
    }
  }

  lemma LeaveKeepsEntries(s: Tables, t: Tables, pid: u16)
    requires EntriesMatch(s) && t.players == s.players - {pid}
    requires t.entries == Vehicles.WithoutOwner(s.entries, pid)
    ensures EntriesMatch(t) && forall e :: e in t.entries ==> e.owner != pid
  {
    Vehicles.DisconnectRefines(s.entries, pid);
    FilterMembers((e: Vehicles.Entry) => e.owner != pid, s.entries);
  }

  lemma DisconnectKeepsInv(cfg: Config, s: Tables, sid: u16)
    requires Inv(cfg, s)
    ensures Inv(cfg, Disconnect(s, sid))
    ensures sid in s.sessionToPlayer ==> Gone(Disconnect(s, sid), s.sessionToPlayer[sid])
    ensures Disconnect(s, sid).nextPlayer == s.nextPlayer
  {
    if sid in s.tcp.sessions { CloseKeepsInv(cfg, s, sid); }
  }

  lemma KickKeepsInv(cfg: Config, s: Tables, pid: u16)
    requires Inv(cfg, s)
    ensures Inv(cfg, Kick(s, pid)) && Gone(Kick(s, pid), pid)
    ensures Kick(s, pid).nextPlayer == s.nextPlayer
  {
    if sid :| sid in s.sessionToPlayer && s.sessionToPlayer[sid] == pid {
      DisconnectKeepsInv(cfg, Send(s, sid, Tcp.KickNotice), sid);
    } else {
      assert pid !in s.players;
    }
  }

  /** Players have one session each, so the session that a kick picks is that one. */
  lemma KickClosesTheSession(cfg: Config, s: Tables, sid: u16, pid: u16)
    requires Inv(cfg, s) && sid in s.sessionToPlayer && s.sessionToPlayer[sid] == pid
    ensures Kick(s, pid) == KickSession(s, sid)
  {
  }

  // ---------- entering ----------

  /** Registering keeps the invariant if neither the session nor the id is taken. */
  lemma RegisterKeepsInv(cfg: Config, s: Tables, sid: u16, p: Player)
    requires Inv(cfg, s) && sid in s.tcp.sessions && p.id != NO_PLAYER && p.vehicles == []
    requires sid !in s.sessionToPlayer && p.id !in s.players
    ensures Inv(cfg, Register(s, sid, p))
  {
    var t := Register(s, sid, p);
    forall q | q in t.players
      ensures exists a :: a in t.sessionToPlayer && t.sessionToPlayer[a] == q
    {
      if q == p.id {
        assert t.sessionToPlayer[sid] == q;
      } else {
        var a :| a in s.sessionToPlayer && s.sessionToPlayer[a] == q;
        assert a in t.sessionToPlayer && t.sessionToPlayer[a] == q;
      }
    }
  }

  /**
   Exactly when an accepted authentication keeps the invariant: the session is
   still open, and neither it nor the id handed out is in use, except by each other.
   */
  lemma AuthKeepsInvIff(cfg: Config, s: Tables, sid: u16, request: AuthRequest)
    requires Inv(cfg, s) && Refusal(cfg, s, request) == None
    ensures Inv(cfg, HandleAuth(cfg, s, sid, request, false))
            <==> var pid := NextId(s.nextPlayer);
                 && sid in s.tcp.sessions
                 && if sid in s.sessionToPlayer then s.sessionToPlayer[sid] == pid else pid !in s.players
  {
    Registered(cfg, s, sid, request);
    RegisteredKeepsInvIff(cfg, s, HandleAuth(cfg, s, sid, request, false), sid, NewPlayer(s, request));
  }

  lemma RegisteredKeepsInvIff(cfg: Config, s: Tables, t: Tables, sid: u16, p: Player)
    requires Inv(cfg, s) && p.id != NO_PLAYER && p.vehicles == []
    requires t == Register(s, sid, p).(tcp := t.tcp) && t.tcp.sessions == s.tcp.sessions
    ensures Inv(cfg, t)
            <==> && sid in s.tcp.sessions
                 && if sid in s.sessionToPlayer then s.sessionToPlayer[sid] == p.id else p.id !in s.players
  {
    if sid !in s.tcp.sessions {
      ClosedSessionEnters(t, sid);
    } else if sid !in s.sessionToPlayer && p.id !in s.players {
      RegisterKeepsInv(cfg, s, sid, p);
    } else if sid !in s.sessionToPlayer {
      IdTakenTwice(s, t, sid, p.id);
    } else if s.sessionToPlayer[sid] == p.id {
      ReplacedInPlace(cfg, s, t, p);
    } else {
      OldPlayerStrands(s, t, sid, p.id);
    }
  }

  lemma ClosedSessionEnters(t: Tables, sid: u16)
    requires sid in t.sessionToPlayer && sid !in t.tcp.sessions
    ensures !SessionsMatch(t)
  {
  }

  /** Acceptance is registration, but for what is sent. */
  lemma Registered(cfg: Config, s: Tables, sid: u16, request: AuthRequest)
    requires Refusal(cfg, s, request) == None
    ensures var t, r := HandleAuth(cfg, s, sid, request, false), Register(s, sid, NewPlayer(s, request));
            t == r.(tcp := t.tcp) && t.tcp == s.tcp.(sent := t.tcp.sent)
  {
  }

  lemma ReplacedInPlace(cfg: Config, s: Tables, t: Tables, p: Player)
    requires Inv(cfg, s) && p.id in s.players && p.vehicles == []
    requires t.sessionToPlayer == s.sessionToPlayer && t.players == s.players[p.id := p]
    requires t.tcp.sessions == s.tcp.sessions && t.udp == s.udp && t.entries == s.entries
    ensures Inv(cfg, t)
  {
    assert t.players.Keys == s.players.Keys;
  }

  /** An id still in use ends up with two sessions. */
  lemma IdTakenTwice(s: Tables, t: Tables, sid: u16, pid: u16)
    requires SessionsMatch(s) && sid !in s.sessionToPlayer && pid in s.players
    requires t.sessionToPlayer == s.sessionToPlayer[sid := pid]
    ensures !SessionsMatch(t)
  {
    var a :| a in s.sessionToPlayer && s.sessionToPlayer[a] == pid;
    assert t.sessionToPlayer[a] == t.sessionToPlayer[sid] && a != sid;
  }

  /** A second success on one session leaves the first player without any session. */
  lemma OldPlayerStrands(s: Tables, t: Tables, sid: u16, pid: u16)
    requires SessionsMatch(s) && sid in s.sessionToPlayer && s.sessionToPlayer[sid] != pid
    requires t.sessionToPlayer == s.sessionToPlayer[sid := pid] && s.players.Keys <= t.players.Keys
    ensures s.sessionToPlayer[sid] in t.players && !SessionsMatch(t)
  {
    var first := s.sessionToPlayer[sid];
    forall a | a in t.sessionToPlayer ensures t.sessionToPlayer[a] != first {
      if a != sid { assert t.sessionToPlayer[a] == s.sessionToPlayer[a]; }
    }
  }

  /** A veto takes out the id handed out and whatever session entry there was, and closes the session. */
  lemma VetoResult(cfg: Config, s: Tables, sid: u16, request: AuthRequest)
    requires Refusal(cfg, s, request) == None && request.username != BRIDGE
    ensures HandleAuth(cfg, s, sid, request, true)
            == s.(nextPlayer := NextId(s.nextPlayer) + 1,
                  players := s.players - {NextId(s.nextPlayer)},
                  sessionToPlayer := s.sessionToPlayer - {sid},
                  tcp := Tcp.Erase(Tcp.Send(s.tcp, sid, Tcp.AuthError(Tcp.Vetoed)), sid))
  {
    var p := NewPlayer(s, request);
    PutAndRemove(s.sessionToPlayer, sid, p.id);
    PutAndRemove(s.players, p.id, p);
    var u := s.(nextPlayer := NextId(s.nextPlayer) + 1,
                players := s.players - {p.id}, sessionToPlayer := s.sessionToPlayer - {sid});
    assert HandleAuth(cfg, s, sid, request, true) == Refuse(u, sid, Tcp.Vetoed);
    RefuseUnknown(u, sid, Tcp.Vetoed);
  }

  /** Refusing a session without a player sends the reason and closes the session, if it is open. */
  lemma RefuseUnknown(s: Tables, sid: u16, reason: Tcp.Refusal)
    requires sid !in s.sessionToPlayer
    ensures Refuse(s, sid, reason) == s.(tcp := Tcp.Erase(Tcp.Send(s.tcp, sid, Tcp.AuthError(reason)), sid))
  {
    if sid !in s.tcp.sessions { assert s.tcp.sessions - {sid} == s.tcp.sessions; }
  }

  /** A vetoed player leaves nothing behind but a refusal, a used-up id and a closed session. */
  lemma VetoLeavesNoTrace(cfg: Config, s: Tables, sid: u16, request: AuthRequest)
    requires sid !in s.sessionToPlayer && NextId(s.nextPlayer) !in s.players
    requires Refusal(cfg, s, request) == None && request.username != BRIDGE
    ensures HandleAuth(cfg, s, sid, request, true)
            == s.(nextPlayer := NextId(s.nextPlayer) + 1,
                  tcp := Tcp.Erase(Tcp.Send(s.tcp, sid, Tcp.AuthError(Tcp.Vetoed)), sid))
  {
    VetoResult(cfg, s, sid, request);
    PutAndRemove(s.sessionToPlayer, sid, 0);
    PutAndRemove(s.players, NextId(s.nextPlayer), NewPlayer(s, request));
  }

  /**
   Exactly when a vetoed authentication keeps the invariant: session and id are
   both unused, or belong to each other and the player has no endpoint and no vehicle.
   */
  lemma VetoKeepsInvIff(cfg: Config, s: Tables, sid: u16, request: AuthRequest)
    requires Inv(cfg, s)
    requires Refusal(cfg, s, request) == None && request.username != BRIDGE
    ensures Inv(cfg, HandleAuth(cfg, s, sid, request, true))
            <==> var pid := NextId(s.nextPlayer);
                 if sid in s.sessionToPlayer then
                   s.sessionToPlayer[sid] == pid && pid !in s.udp.toEp && forall e :: e in s.entries ==> e.owner != pid
                 else pid !in s.players
  {
    VetoResult(cfg, s, sid, request);
    RemovalKeepsInvIff(cfg, s, HandleAuth(cfg, s, sid, request, true), sid, NextId(s.nextPlayer));
  }

  ghost predicate BothTakenOut(s: Tables, t: Tables, sid: u16, pid: u16)
  {
    && t.sessionToPlayer == s.sessionToPlayer - {sid} && t.players == s.players - {pid}
    && t.tcp.sessions == s.tcp.sessions - {sid} && t.udp == s.udp && t.entries == s.entries
  }

  lemma RemovalKeepsInvIff(cfg: Config, s: Tables, t: Tables, sid: u16, pid: u16)
    requires Inv(cfg, s) && BothTakenOut(s, t, sid, pid)
    ensures Inv(cfg, t)
            <==> if sid in s.sessionToPlayer then
                   s.sessionToPlayer[sid] == pid && pid !in s.udp.toEp && forall e :: e in s.entries ==> e.owner != pid
                 else pid !in s.players
  {
    if sid !in s.sessionToPlayer {
      NoSessionToRemove(cfg, s, t, sid, pid);
    } else if s.sessionToPlayer[sid] == pid {
      LeaveKeepsSessions(s, t, sid, pid);
    } else {
      PlayerStays(s, t, sid, pid);
    }
  }

  lemma NoSessionToRemove(cfg: Config, s: Tables, t: Tables, sid: u16, pid: u16)
    requires Inv(cfg, s) && BothTakenOut(s, t, sid, pid) && sid !in s.sessionToPlayer
    ensures Inv(cfg, t) <==> pid !in s.players
  {
    assert t.sessionToPlayer == s.sessionToPlayer;
    if pid in s.players {
      var a :| a in s.sessionToPlayer && s.sessionToPlayer[a] == pid;
      assert a in t.sessionToPlayer && t.sessionToPlayer[a] !in t.players;
    } else {
      assert t.players == s.players;
    }
  }

  lemma PlayerStays(s: Tables, t: Tables, sid: u16, pid: u16)
    requires SessionsMatch(s) && BothTakenOut(s, t, sid, pid)
    requires sid in s.sessionToPlayer && s.sessionToPlayer[sid] != pid
    ensures !SessionsMatch(t)
  {
    var q := s.sessionToPlayer[sid];
    assert q in t.players;
    forall a | a in t.sessionToPlayer ensures t.sessionToPlayer[a] != q {
      assert t.sessionToPlayer[a] == s.sessionToPlayer[a];
    }
  }

  lemma AuthKeepsInv(cfg: Config, s: Tables, sid: u16, request: AuthRequest, veto: bool)
    requires Inv(cfg, s) && Assumed(cfg, s, Packet(sid, Auth(request, veto)))
    ensures Inv(cfg, HandleAuth(cfg, s, sid, request, veto))
  {
    match Refusal(cfg, s, request)
    case Some(reason) =>
      DisconnectKeepsInv(cfg, Send(s, sid, Tcp.AuthError(reason)), sid);
    case None =>
      if veto && request.username != BRIDGE {
        VetoLeavesNoTrace(cfg, s, sid, request);
        ErasedKeepsInv(cfg, s, HandleAuth(cfg, s, sid, request, true), sid);
      } else {
        RegisterKeepsInv(cfg, s, sid, NewPlayer(s, request));
      }
  }

  lemma ErasedKeepsInv(cfg: Config, s: Tables, t: Tables, sid: u16)
    requires Inv(cfg, s) && sid !in s.sessionToPlayer
    requires t == s.(tcp := t.tcp, nextPlayer := t.nextPlayer) && t.tcp.sessions == s.tcp.sessions - {sid}
    ensures Inv(cfg, t)
  {
  }

  // ---------- playing ----------

  lemma PlayerChangeKeepsInv(cfg: Config, s: Tables, pid: u16, p: Player)
    requires Inv(cfg, s) && pid in s.players && p.id == pid && VehiclesMatch(cfg, p.vehicles)
    ensures Inv(cfg, s.(players := s.players[pid := p]))
  {
    var t := s.(players := s.players[pid := p]);
    assert t.players.Keys == s.players.Keys;
  }

  /** A spawned vehicle's id is below the limit, as is the number of vehicles. */
  lemma AddVehicleMatches(cfg: Config, vehicles: seq<byte>)
    requires VehiclesMatch(cfg, vehicles) && |vehicles| < cfg.vehicleLimit
    ensures VehiclesMatch(cfg, AddVehicle(vehicles))
  {
  }

  lemma {:induction false} DropVehicleShrinks(vehicles: seq<byte>, vid: byte)
    ensures |DropVehicle(vehicles, vid)| <= |vehicles|
  {
    if vehicles != [] { DropVehicleShrinks(vehicles[1..], vid); }
  }

  lemma DropVehicleMatches(cfg: Config, vehicles: seq<byte>, vid: byte)
    requires VehiclesMatch(cfg, vehicles)
    ensures VehiclesMatch(cfg, DropVehicle(vehicles, vid))
  {
    var kept := DropVehicle(vehicles, vid);
    DropVehicleShrinks(vehicles, vid);
    FilterMembers((v: byte) => v != vid, vehicles);
    forall i | 0 <= i < |kept| && 0 <= cfg.vehicleLimit <= 0x100 ensures kept[i] < cfg.vehicleLimit {
      assert kept[i] in vehicles;
    }
  }

  lemma EntriesOfLivePlayers(cfg: Config, s: Tables, es: seq<Vehicles.Entry>)
    requires Inv(cfg, s) && Vehicles.Distinct(es)
    requires forall e :: e in es ==> e.owner in s.players
    ensures Inv(cfg, s.(entries := es))
  {
  }

  lemma ControlKeepsInv(cfg: Config, s: Tables, sid: u16, control: Control)
    requires Inv(cfg, s) && Assumed(cfg, s, Packet(sid, control))
    ensures Inv(cfg, OnControl(cfg, s, sid, control))
  {
    match control
    case Auth(request, veto) => AuthKeepsInv(cfg, s, sid, request, veto);
    case Unmodelled =>
    case Spawn(_) =>
      if sid in s.sessionToPlayer {
        var pid := s.sessionToPlayer[sid];
        var p := s.players[pid];
        if |p.vehicles| < cfg.vehicleLimit {
          AddVehicleMatches(cfg, p.vehicles);
          PlayerChangeKeepsInv(cfg, s, pid, p.(vehicles := AddVehicle(p.vehicles)));
        }
      }
    case Remove(payload) =>
      if sid in s.sessionToPlayer && |payload| >= 1 {
        var pid := s.sessionToPlayer[sid];
        var p := s.players[pid];
        var k := Vehicles.Key(pid, payload[0]);
        DropVehicleMatches(cfg, p.vehicles, payload[0]);
        PlayerChangeKeepsInv(cfg, s, pid, p.(vehicles := DropVehicle(p.vehicles, payload[0])));
        Vehicles.DeleteRefines(s.entries, k);
        FilterMembers(e => Vehicles.KeyOf(e) != k, s.entries);
      }
    case SetReady =>
      if sid in s.sessionToPlayer {
        var pid := s.sessionToPlayer[sid];
        PlayerChangeKeepsInv(cfg, s, pid, s.players[pid].(phase := Ready));
      }
  }

  lemma DatagramKeepsInv(cfg: Config, s: Tables, from: Udp.Endpoint, d: Decoded, fromAuthority: bool)
    requires Inv(cfg, s)
    ensures Inv(cfg, OnDatagram(s, from, d, fromAuthority))
  {
    hide Inv, Vehicles.Updated, Udp.Recipients;
    var pid, t := Udp.PlayerFromEndpoint(s.udp, from), OnDatagram(s, from, d, fromAuthority);
    SendingKeepsInv(cfg, s, t.udp.sent);
    if pid != NO_PLAYER && d.VehicleData? && d.state.Some? {
      SenderIsLive(cfg, s, from);
      ReportKeepsInv(cfg, s, pid, d.state.value);
    }
  }

  lemma SendingKeepsInv(cfg: Config, s: Tables, sent: seq<Udp.Datagram>)
    requires Inv(cfg, s)
    ensures Inv(cfg, s.(udp := s.udp.(sent := sent)))
  {
  }

  lemma SenderIsLive(cfg: Config, s: Tables, from: Udp.Endpoint)
    requires Inv(cfg, s) && from in s.udp.toPlayer
    ensures s.udp.toPlayer[from] in s.players
  {
  }

  lemma ReportKeepsInv(cfg: Config, s: Tables, pid: u16, state: VehicleState)
    requires Inv(cfg, s) && pid in s.players
    ensures Inv(cfg, s.(entries := Vehicles.Updated(s.entries, pid, state)))
  {
    Vehicles.UpdateRefines(s.entries, pid, state);
    EntriesOfLivePlayers(cfg, s, Vehicles.Updated(s.entries, pid, state));
  }

  lemma {:induction false} SendSyncKeepsMaps(u: Udp.Udp, ms: seq<Vehicles.Emission>)
    ensures Udp.SendSync(u, ms) == u.(sent := Udp.SendSync(u, ms).sent)
    decreases |ms|
  {
    if ms != [] {
      SendSyncKeepsMaps(u.(sent := u.sent + [Udp.Sync(ms[0], Udp.Recipients(u, ms[0].exclude))]), ms[1..]);
    }
  }

  lemma TickKeepsInv(cfg: Config, s: Tables)
    requires Inv(cfg, s)
    ensures Inv(cfg, Tick(s))
  {
    Vehicles.BroadcastRefines(s.entries);
    SendSyncKeepsMaps(s.udp, Vehicles.Emissions(s.entries));
    EntriesOfLivePlayers(cfg, s, Vehicles.AllSent(s.entries));
  }

  lemma StepKeepsInv(cfg: Config, s: Tables, op: Op)
    requires Inv(cfg, s) && Assumed(cfg, s, op)
    ensures Inv(cfg, Step(cfg, s, op))
  {
    match op
    case Accept =>
    case Packet(sid, control) => ControlKeepsInv(cfg, s, sid, control);
    case Datagram(from, d, fromAuthority) => DatagramKeepsInv(cfg, s, from, d, fromAuthority);
    case MapPlayer(pid, ep) => Udp.MapPlayerKeepsInverseIff(s.udp, pid, ep);
    case KickPlayer(pid) => KickKeepsInv(cfg, s, pid);
    case Close(sid) => CloseKeepsInv(cfg, s, sid);
    case SyncTick => TickKeepsInv(cfg, s);
  }

  /** The invariant holds after every legal run. */
  lemma {:induction false} RunKeepsInv(cfg: Config, ops: seq<Op>)
    requires Legal(cfg, ops)
    ensures Inv(cfg, After(cfg, ops))
  {
    if ops != [] {
      RunKeepsInv(cfg, ops[..|ops| - 1]);
      StepKeepsInv(cfg, After(cfg, ops[..|ops| - 1]), ops[|ops| - 1]);
    }
  }

  // ---------- a plain login ----------

  const DRIVER: string := "driver"

  function Login(cfg: Config, sid: u16): Op
  {
    Packet(sid, Auth(Request(DRIVER, cfg.password, "player"), false))
  }

  /** A login with the right password, on a fresh open session, adds one player. */
  lemma LoginEnters(cfg: Config, s: Tables, sid: u16)
    requires sid in s.tcp.sessions && sid !in s.sessionToPlayer
    requires NextId(s.nextPlayer) !in s.players && |s.players| < cfg.maxPlayers
    ensures Assumed(cfg, s, Login(cfg, sid))
    ensures var t, pid := Step(cfg, s, Login(cfg, sid)), NextId(s.nextPlayer);
            && t.sessionToPlayer == s.sessionToPlayer[sid := pid] && t.players.Keys == s.players.Keys + {pid}
            && t.nextPlayer == pid + 1 && t.udp == s.udp && t.entries == s.entries
            && t.tcp.sessions == s.tcp.sessions && t.tcp.nextSession == s.tcp.nextSession
  {
    var request := Request(DRIVER, cfg.password, "player");
    assert |DRIVER| != |BRIDGE|;
    assert Refusal(cfg, s, request) == None;
    Registered(cfg, s, sid, request);
  }

  // ---------- closing again ----------

  ghost predicate OpensNone(s: Tables, t: Tables)
  {
    t.tcp.sessions <= s.tcp.sessions && t.tcp.nextSession == s.tcp.nextSession
  }

  lemma CloseOpensNone(s: Tables, sid: u16)
    ensures OpensNone(s, CloseSession(s, sid)) && OpensNone(s, Disconnect(s, sid))
  {
  }

  lemma AuthOpensNone(cfg: Config, s: Tables, sid: u16, request: AuthRequest, veto: bool)
    ensures OpensNone(s, HandleAuth(cfg, s, sid, request, veto))
  {
    match Refusal(cfg, s, request)
    case Some(reason) => CloseOpensNone(Send(s, sid, Tcp.AuthError(reason)), sid);
    case None =>
      if veto && request.username != BRIDGE {
        VetoResult(cfg, s, sid, request);
      } else {
        assert OpensNone(s, Welcome(Register(s, sid, NewPlayer(s, request)), sid, NewPlayer(s, request)));
      }
  }

  /** Only an accepted connection opens a session. */
  lemma StepOpensNone(cfg: Config, s: Tables, op: Op)
    requires !op.Accept?
    ensures OpensNone(s, Step(cfg, s, op))
  {
    match op
    case Packet(sid, control) =>
      if control.Auth? { AuthOpensNone(cfg, s, sid, control.request, control.veto); }
    case Close(sid) => CloseOpensNone(s, sid);
    case KickPlayer(pid) =>
      forall a ensures OpensNone(s, KickSession(s, a)) { CloseOpensNone(Send(s, a, Tcp.KickNotice), a); }
    case _ =>
  }

  lemma StepKeepsClosed(cfg: Config, s: Tables, op: Op, sid: u16)
    requires sid !in s.tcp.sessions && (op.Accept? ==> s.tcp.nextSession != sid)
    ensures sid !in Step(cfg, s, op).tcp.sessions
  {
    if !op.Accept? { StepOpensNone(cfg, s, op); }
  }

  /** No connection accepted during `more`, after `ops`, gets the id. */
  ghost predicate NotReused(cfg: Config, ops: seq<Op>, more: seq<Op>, sid: u16)
  {
    forall i :: 0 <= i < |more| && more[i].Accept? ==> After(cfg, ops + more[..i]).tcp.nextSession != sid
  }

  lemma {:induction false} RunKeepsClosed(cfg: Config, ops: seq<Op>, more: seq<Op>, sid: u16)
    requires sid !in After(cfg, ops).tcp.sessions && NotReused(cfg, ops, more, sid)
    ensures sid !in After(cfg, ops + more).tcp.sessions
  {
    if more == [] {
      assert ops + more == ops;
    } else {
      var n := |more| - 1;
      NotReusedBefore(cfg, ops, more, sid);
      RunKeepsClosed(cfg, ops, more[..n], sid);
      assert (ops + more)[..|ops + more| - 1] == ops + more[..n];
      StepKeepsClosed(cfg, After(cfg, ops + more[..n]), more[n], sid);
    }
  }

  lemma NotReusedBefore(cfg: Config, ops: seq<Op>, more: seq<Op>, sid: u16)
    requires more != [] && NotReused(cfg, ops, more, sid)
    ensures NotReused(cfg, ops, more[..|more| - 1], sid)
  {
    var front := more[..|more| - 1];
    forall i | 0 <= i < |front| && front[i].Accept? ensures After(cfg, ops + front[..i]).tcp.nextSession != sid {
      assert front[..i] == more[..i];
    }
  }

  /** Exactly when a close is without effect after a legal run: the session is not open. */
  lemma CloseIsIdleIff(cfg: Config, ops: seq<Op>, sid: u16)
    requires Legal(cfg, ops)
    ensures CloseSession(After(cfg, ops), sid) == After(cfg, ops) <==> sid !in After(cfg, ops).tcp.sessions
  {
    var s := After(cfg, ops);
    RunKeepsInv(cfg, ops);
    CloseKeepsInv(cfg, s, sid);
    if sid !in s.tcp.sessions { assert s.tcp.sessions - {sid} == s.tcp.sessions; }
  }

  /**
   A session closes once. However it left the table, by a close, a kick or a
   refusal: whatever legal steps follow, closing the id again changes nothing and
   broadcasts nothing, unless a new connection got the id.
   */
  lemma CloseAgain(cfg: Config, ops: seq<Op>, more: seq<Op>, sid: u16)
    requires Legal(cfg, ops + more)
    requires sid !in After(cfg, ops).tcp.sessions && NotReused(cfg, ops, more, sid)
    ensures var s := After(cfg, ops + more);
            CloseSession(s, sid) == s
  {
    RunKeepsClosed(cfg, ops, more, sid);
    CloseIsIdleIff(cfg, ops + more, sid);
  }
}
