/**
 What the server tells its sessions: the messages of every step with their
 receivers, who receives which kind along a run, and the announcements of ready
 players, vehicles and kicks.
 */
module Messages {
  import opened Bytes
  import opened GameServer
  import opened Lifecycle
  import Vehicles = VehicleSync
  import Tcp = TcpServer

  /** To every open session but 0xFFFF. */
  function ToAll(sessions: set<u16>, m: Tcp.Message): Tcp.Outgoing
  {
    Tcp.Outgoing(sessions - {0xFFFF}, m)
  }

  /** What the end of a session tells the others. */
  function Farewell(s: Tables, sid: u16): seq<Tcp.Outgoing>
  {
    if sid in s.sessionToPlayer then [ToAll(s.tcp.sessions - {sid}, Tcp.PlayerLeave(s.sessionToPlayer[sid]))] else []
  }

  function AuthSays(cfg: Config, s: Tables, sid: u16, request: AuthRequest, veto: bool): seq<Tcp.Outgoing>
  {
    var pid := NextId(s.nextPlayer);
    if sid !in s.tcp.sessions then []
    else match Refusal(cfg, s, request)
      case Some(reason) =>
        [Tcp.Outgoing({sid}, Tcp.AuthError(reason))] + if Closes(reason) then Farewell(s, sid) else []
      case None =>
        if veto && request.username != BRIDGE then [Tcp.Outgoing({sid}, Tcp.AuthError(Tcp.Vetoed))]
        else [Tcp.Outgoing({sid}, Tcp.AuthOk(pid))]
             + if request.username == BRIDGE then [] else [Tcp.Outgoing({sid}, Tcp.ServerInfo(|s.players| + 1))]
  }

  function PlaySays(cfg: Config, s: Tables, pid: u16, control: Control): seq<Tcp.Outgoing>
    requires pid in s.players
  {
    var n := |s.players[pid].vehicles|;
    match control
    case SetReady => [ToAll(s.tcp.sessions, Tcp.PlayerJoin(pid))]
    case Spawn(wellFormed) =>
      if wellFormed && n < cfg.vehicleLimit then [ToAll(s.tcp.sessions, Tcp.VehicleSpawn(pid, n % 0x100))] else []
    case Remove(payload) =>
      if |payload| >= 1 then [ToAll(s.tcp.sessions, Tcp.VehicleDelete(pid, payload[0]))] else []
    case _ => []
  }

  /** The messages a step sends, in order. */
  ghost function Says(cfg: Config, s: Tables, op: Op): seq<Tcp.Outgoing>
  {
    match op
    case Packet(sid, control) =>
      if control.Auth? then AuthSays(cfg, s, sid, control.request, control.veto)
      else if sid !in s.sessionToPlayer || s.sessionToPlayer[sid] !in s.players then []
      else PlaySays(cfg, s, s.sessionToPlayer[sid], control)
    case KickPlayer(pid) =>
      if sid :| sid in s.sessionToPlayer && s.sessionToPlayer[sid] == pid then
        [Tcp.Outgoing({sid}, Tcp.KickNotice)] + Farewell(s, sid)
      else []
    case Close(sid) => Farewell(s, sid)
    case _ => []
  }

  // ---------- one step ----------

  lemma CloseSays(s: Tables, sid: u16)
    requires SessionsMatch(s) && NO_PLAYER !in s.players
    ensures CloseSession(s, sid).tcp.sent == s.tcp.sent + Farewell(s, sid)
  {
    assert s.tcp.sent + [] == s.tcp.sent;
  }

  /** A message to one open session, and then the end of that session. */
  lemma LastWords(cfg: Config, s: Tables, sid: u16, m: Tcp.Message)
    requires Inv(cfg, s) && sid in s.tcp.sessions
    ensures Send(s, sid, m).tcp.sent == s.tcp.sent + [Tcp.Outgoing({sid}, m)]
    ensures Disconnect(Send(s, sid, m), sid).tcp.sent == s.tcp.sent + ([Tcp.Outgoing({sid}, m)] + Farewell(s, sid))
  {
    CloseSays(Send(s, sid, m), sid);
    Associates(s.tcp.sent, [Tcp.Outgoing({sid}, m)], Farewell(s, sid));
  }

  lemma AuthStepSays(cfg: Config, s: Tables, sid: u16, request: AuthRequest, veto: bool)
    requires Inv(cfg, s) && Assumed(cfg, s, Packet(sid, Auth(request, veto)))
    ensures HandleAuth(cfg, s, sid, request, veto).tcp.sent == s.tcp.sent + AuthSays(cfg, s, sid, request, veto)
  {
    assert s.tcp.sent + [] == s.tcp.sent;
    match Refusal(cfg, s, request)
    case Some(reason) =>
      if sid in s.tcp.sessions {
        LastWords(cfg, s, sid, Tcp.AuthError(reason));
        assert [Tcp.Outgoing({sid}, Tcp.AuthError(reason))] + [] == [Tcp.Outgoing({sid}, Tcp.AuthError(reason))];
      }
    case None =>
      if veto && request.username != BRIDGE {
        VetoLeavesNoTrace(cfg, s, sid, request);
      } else {
        WelcomeSays(s, sid, NewPlayer(s, request));
      }
  }

  lemma WelcomeSays(s: Tables, sid: u16, p: Player)
    requires sid in s.tcp.sessions && p.id !in s.players
    ensures Welcome(Register(s, sid, p), sid, p).tcp.sent
            == s.tcp.sent + ([Tcp.Outgoing({sid}, Tcp.AuthOk(p.id))]
                             + if p.username == BRIDGE then []
                               else [Tcp.Outgoing({sid}, Tcp.ServerInfo(|s.players| + 1))])
  {
    var r := Register(s, sid, p);
    assert |r.players| == |s.players| + 1;
    var id := [Tcp.Outgoing({sid}, Tcp.AuthOk(p.id))];
    Associates(s.tcp.sent, id, [Tcp.Outgoing({sid}, Tcp.ServerInfo(|s.players| + 1))]);
    assert id + [] == id;
  }

  /** The messages of a step are these and no others. */
  lemma StepSays(cfg: Config, s: Tables, op: Op)
    requires Inv(cfg, s) && Assumed(cfg, s, op)
    ensures Step(cfg, s, op).tcp.sent == s.tcp.sent + Says(cfg, s, op)
  {
    assert s.tcp.sent + [] == s.tcp.sent;
    match op
    case Packet(sid, control) =>
      if control.Auth? { AuthStepSays(cfg, s, sid, control.request, control.veto); }
    case KickPlayer(pid) =>
      if sid :| sid in s.sessionToPlayer && s.sessionToPlayer[sid] == pid {
        LastWords(cfg, s, sid, Tcp.KickNotice);
      }
    case Close(sid) => CloseSays(s, sid);
    case _ =>
  }

  // ---------- receivers ----------

  /**
   Joins, leaves and vehicle messages go to every session open after the step, but
   0xFFFF; answers to the one session that asked, and kick notices to the one kicked.
   */
  ghost predicate Addressed(s: Tables, op: Op, t: Tables, o: Tcp.Outgoing)
  {
    match o.message
    case AuthOk(_) => AnswersOne(s, op, o)
    case AuthError(_) => AnswersOne(s, op, o)
    case ServerInfo(_) => AnswersOne(s, op, o)
    case KickNotice =>
      op.KickPlayer? && exists sid ::
        sid in s.sessionToPlayer && s.sessionToPlayer[sid] == op.pid && sid in s.tcp.sessions && o.sessions == {sid}
    case _ => o.sessions == t.tcp.sessions - {0xFFFF}
  }

  ghost predicate AnswersOne(s: Tables, op: Op, o: Tcp.Outgoing)
  {
    op.Packet? && op.control.Auth? && op.sid in s.tcp.sessions && o.sessions == {op.sid}
  }

  lemma AuthAddressed(cfg: Config, s: Tables, sid: u16, request: AuthRequest, veto: bool, o: Tcp.Outgoing)
    requires Inv(cfg, s) && o in AuthSays(cfg, s, sid, request, veto)
    ensures Addressed(s, Packet(sid, Auth(request, veto)), HandleAuth(cfg, s, sid, request, veto), o)
  {
    if o.message.PlayerLeave? {
      var reason := Refusal(cfg, s, request).value;
      assert o in Farewell(s, sid);
      assert HandleAuth(cfg, s, sid, request, veto).tcp.sessions == s.tcp.sessions - {sid};
    }
  }

  lemma SaysAddressed(cfg: Config, s: Tables, op: Op, o: Tcp.Outgoing)
    requires Inv(cfg, s) && Assumed(cfg, s, op) && o in Says(cfg, s, op)
    ensures Addressed(s, op, Step(cfg, s, op), o)
  {
    match op
    case Packet(sid, control) =>
      if control.Auth? { AuthAddressed(cfg, s, sid, control.request, control.veto, o); }
    case KickPlayer(pid) =>
      if sid :| sid in s.sessionToPlayer && s.sessionToPlayer[sid] == pid {
        KickClosesTheSession(cfg, s, sid, pid);
        assert Step(cfg, s, op).tcp.sessions == s.tcp.sessions - {sid};
      }
    case _ =>
  }

  /** Every message ever sent was sent by a step of the run, to exactly the sessions it is meant for. */
  lemma {:induction false} EveryMessageAddressed(cfg: Config, ops: seq<Op>, o: Tcp.Outgoing) returns (i: nat)
    requires Legal(cfg, ops) && o in After(cfg, ops).tcp.sent
    ensures i < |ops| && Addressed(After(cfg, ops[..i]), ops[i], After(cfg, ops[..i + 1]), o)
  {
    var before, op := ops[..|ops| - 1], ops[|ops| - 1];
    var s := After(cfg, before);
    RunKeepsInv(cfg, before);
    StepSays(cfg, s, op);
    if o in s.tcp.sent {
      i := EveryMessageAddressed(cfg, before, o);
      assert ops[..i] == before[..i] && ops[..i + 1] == before[..i + 1];
    } else {
      i := |before|;
      SaysAddressed(cfg, s, op, o);
      assert ops[..i + 1] == ops;
    }
  }

  // ---------- announcements ----------

  /** A ready packet makes its player ready, changes nothing else of it, and announces its join once to all. */
  lemma ReadyIsAnnounced(cfg: Config, s: Tables, sid: u16, pid: u16)
    requires Inv(cfg, s) && sid in s.sessionToPlayer && s.sessionToPlayer[sid] == pid
    ensures Step(cfg, s, Packet(sid, SetReady))
            == s.(players := s.players[pid := s.players[pid].(phase := Ready)],
                  tcp := s.tcp.(sent := s.tcp.sent + [ToAll(s.tcp.sessions, Tcp.PlayerJoin(pid))]))
  {
  }

  /** A spawn below the limit appends one vehicle to the player's, and the id announced to all is that vehicle's. */
  lemma SpawnIsAnnounced(cfg: Config, s: Tables, sid: u16, pid: u16)
    requires Inv(cfg, s) && sid in s.sessionToPlayer && s.sessionToPlayer[sid] == pid
    requires |s.players[pid].vehicles| < cfg.vehicleLimit
    ensures var p, t := s.players[pid], Step(cfg, s, Packet(sid, Spawn(true)));
            && |t.players[pid].vehicles| == |p.vehicles| + 1
            && var vid := t.players[pid].vehicles[|p.vehicles|];
               t == s.(players := s.players[pid := p.(vehicles := p.vehicles + [vid])],
                       tcp := s.tcp.(sent := s.tcp.sent + [ToAll(s.tcp.sessions, Tcp.VehicleSpawn(pid, vid))]))
  {
  }

  /** At the limit, or for a malformed body, a spawn does nothing. */
  lemma SpawnIsRefused(cfg: Config, s: Tables, sid: u16, pid: u16, wellFormed: bool)
    requires Inv(cfg, s) && sid in s.sessionToPlayer && s.sessionToPlayer[sid] == pid
    requires !wellFormed || |s.players[pid].vehicles| >= cfg.vehicleLimit
    ensures Step(cfg, s, Packet(sid, Spawn(wellFormed))) == s
  {
  }

  /** A delete takes out every vehicle of the id, and its state, and announces that id to all. */
  lemma RemoveIsAnnounced(cfg: Config, s: Tables, sid: u16, pid: u16, payload: seq<byte>)
    requires Inv(cfg, s) && sid in s.sessionToPlayer && s.sessionToPlayer[sid] == pid && |payload| >= 1
    ensures var p, t, vid := s.players[pid], Step(cfg, s, Packet(sid, Remove(payload))), payload[0];
            && t == s.(players := s.players[pid := p.(vehicles := t.players[pid].vehicles)], entries := t.entries,
                       tcp := s.tcp.(sent := s.tcp.sent + [ToAll(s.tcp.sessions, Tcp.VehicleDelete(pid, vid))]))
            && (forall v :: v in t.players[pid].vehicles <==> v in p.vehicles && v != vid)
            && (forall e :: e in t.entries <==> e in s.entries && !(e.owner == pid && e.state.vehicleId == vid))
  {
    FilterMembers((v: byte) => v != payload[0], s.players[pid].vehicles);
    var k := Vehicles.Key(pid, payload[0]);
    FilterMembers(e => Vehicles.KeyOf(e) != k, s.entries);
  }

  /** A kick tells the player's session so, then closes it and announces the leave to the others. */
  lemma KickIsAnnounced(cfg: Config, s: Tables, sid: u16, pid: u16)
    requires Inv(cfg, s) && sid in s.sessionToPlayer && s.sessionToPlayer[sid] == pid
    ensures var t := Step(cfg, s, KickPlayer(pid));
            && t.tcp.sessions == s.tcp.sessions - {sid}
            && t.tcp.sent == s.tcp.sent + [Tcp.Outgoing({sid}, Tcp.KickNotice)]
                             + [ToAll(s.tcp.sessions - {sid}, Tcp.PlayerLeave(pid))]
  {
    KickClosesTheSession(cfg, s, sid, pid);
    LastWords(cfg, s, sid, Tcp.KickNotice);
    Associates(s.tcp.sent, [Tcp.Outgoing({sid}, Tcp.KickNotice)], [ToAll(s.tcp.sessions - {sid}, Tcp.PlayerLeave(pid))]);
  }
}
