/**
 Who is let in, told by what a request says and how the server is set up: exactly
 which requests are admitted, what an admission does, and why others are refused.
 */
module Authentication {
  import opened Bytes
  import opened GameServer
  import opened Lifecycle
  import Tcp = TcpServer

  /**
   A request earns admission: the bridge's, if there is an authority and it brings the
   token; or one with a name, with the password if there is one, while there is room.
   */
  ghost predicate Deserves(cfg: Config, s: Tables, request: AuthRequest)
  {
    && request.Request?
    && if request.username == "##ai_bridge##" then cfg.authority && request.password == cfg.bridgeToken
       else && request.username != ""
            && (cfg.password == "" || request.password == cfg.password)
            && |s.players| < cfg.maxPlayers
  }

  /** What is wrong with a request that earns none. */
  ghost predicate Why(cfg: Config, s: Tables, request: AuthRequest, reason: Tcp.Refusal)
  {
    match reason
    case InvalidJson => request.Malformed?
    case BridgeTokenMismatch =>
      request.Request? && request.username == "##ai_bridge##" && !(cfg.authority && request.password == cfg.bridgeToken)
    case UsernameRequired => request.Request? && request.username == ""
    case WrongPassword =>
      && request.Request? && request.username !in ["##ai_bridge##", ""]
      && cfg.password != "" && request.password != cfg.password
    case ServerFull =>
      && request.Request? && request.username !in ["##ai_bridge##", ""]
      && (cfg.password == "" || request.password == cfg.password)
      && |s.players| >= cfg.maxPlayers
    case Vetoed => false
  }

  lemma RefusalIsWhy(cfg: Config, s: Tables, request: AuthRequest)
    ensures Deserves(cfg, s, request) <==> Refusal(cfg, s, request) == None
    ensures forall reason :: Why(cfg, s, request, reason) <==> Refusal(cfg, s, request) == Some(reason)
  {
    assert "##ai_bridge##" != "" by { assert |"##ai_bridge##"| == 13; }
  }

  /** Every request either earns admission or has exactly one thing wrong. */
  lemma OneReason(cfg: Config, s: Tables, request: AuthRequest)
    ensures Deserves(cfg, s, request) <==> forall reason :: !Why(cfg, s, request, reason)
    ensures forall a, b :: Why(cfg, s, request, a) && Why(cfg, s, request, b) ==> a == b
  {
    RefusalIsWhy(cfg, s, request);
    if Refusal(cfg, s, request).Some? { assert Why(cfg, s, request, Refusal(cfg, s, request).value); }
  }

  /** Exactly who is admitted: an id is handed out, and the counter moves, if and only if the request earns it. */
  lemma AdmittedIff(cfg: Config, s: Tables, sid: u16, request: AuthRequest, veto: bool)
    ensures var t := Step(cfg, s, Packet(sid, Auth(request, veto)));
            && (t.nextPlayer == NextId(s.nextPlayer) + 1 <==> Deserves(cfg, s, request))
            && (!Deserves(cfg, s, request) ==> t.nextPlayer == s.nextPlayer)
  {
    RefusalIsWhy(cfg, s, request);
    match Refusal(cfg, s, request)
    case Some(reason) => CloseKeepsCounter(Send(s, sid, Tcp.AuthError(reason)), sid);
    case None => if veto && request.username != BRIDGE { VetoResult(cfg, s, sid, request); }
  }

  lemma CloseKeepsCounter(s: Tables, sid: u16)
    ensures CloseSession(s, sid).nextPlayer == s.nextPlayer && Disconnect(s, sid).nextPlayer == s.nextPlayer
  {
  }

  /** The player an admitted request makes. */
  function Newcomer(pid: u16, request: AuthRequest): Player
    requires request.Request?
  {
    if request.username == "##ai_bridge##" then Player(pid, "##ai_bridge##", "bridge", Ready, [])
    else Player(pid, request.username, request.role, LoadingMods, [])
  }

  /** The messages to the session, if it is still open. */
  function Told(s: Tables, sid: u16, messages: seq<Tcp.Message>): Tables
  {
    s.(tcp := s.tcp.(sent := s.tcp.sent + if sid in s.tcp.sessions then ToOne(sid, messages) else []))
  }

  function ToOne(sid: u16, messages: seq<Tcp.Message>): seq<Tcp.Outgoing>
  {
    if messages == [] then []
    else ToOne(sid, messages[..|messages| - 1]) + [Tcp.Outgoing({sid}, messages[|messages| - 1])]
  }

  lemma ToldOne(s: Tables, sid: u16, m: Tcp.Message)
    ensures Send(s, sid, m) == Told(s, sid, [m])
  {
    assert [m][..0] == [];
    assert ToOne(sid, [m]) == [] + [Tcp.Outgoing({sid}, m)];
    assert s.tcp.sent + [] == s.tcp.sent;
  }

  lemma ToldTwo(s: Tables, sid: u16, m: Tcp.Message, n: Tcp.Message)
    ensures Send(Send(s, sid, m), sid, n) == Told(s, sid, [m, n])
  {
    assert [m, n][..1] == [m] && [m][..0] == [];
    assert ToOne(sid, [m, n]) == ToOne(sid, [m]) + [Tcp.Outgoing({sid}, n)];
    ToldOne(s, sid, m);
    ToldOne(Send(s, sid, m), sid, n);
    if sid in s.tcp.sessions {
      Associates(s.tcp.sent, ToOne(sid, [m]), [Tcp.Outgoing({sid}, n)]);
    }
  }

  /**
   What an admission does, when no plugin takes it back: the new player is in the
   tables under the id handed out and on the session, and the session is told its id
   and, unless it is the bridge, how many players there are now. Nothing else changes.
   */
  lemma AdmissionResult(cfg: Config, s: Tables, sid: u16, request: AuthRequest, veto: bool)
    requires Deserves(cfg, s, request) && !(veto && request.username != "##ai_bridge##")
    ensures var pid := NextId(s.nextPlayer);
            var entered := s.(sessionToPlayer := s.sessionToPlayer[sid := pid],
                              players := s.players[pid := Newcomer(pid, request)], nextPlayer := pid + 1);
            Step(cfg, s, Packet(sid, Auth(request, veto)))
            == Told(entered, sid, if request.username == "##ai_bridge##" then [Tcp.AuthOk(pid)]
                                  else [Tcp.AuthOk(pid), Tcp.ServerInfo(|entered.players|)])
  {
    RefusalIsWhy(cfg, s, request);
    var p := NewPlayer(s, request);
    var entered := Register(s, sid, p);
    assert Step(cfg, s, Packet(sid, Auth(request, veto))) == Welcome(entered, sid, p);
    ToldOne(entered, sid, Tcp.AuthOk(p.id));
    ToldTwo(entered, sid, Tcp.AuthOk(p.id), Tcp.ServerInfo(|entered.players|));
  }

  /**
   What a plugin's veto does: the id is used up, whoever had it or the session is gone
   from the tables, the session is told so and closed.
   */
  lemma VetoedResult(cfg: Config, s: Tables, sid: u16, request: AuthRequest)
    requires Deserves(cfg, s, request) && request.username != "##ai_bridge##"
    ensures var pid, t := NextId(s.nextPlayer), Step(cfg, s, Packet(sid, Auth(request, true)));
            && t == Told(s, sid, [Tcp.AuthError(Tcp.Vetoed)]).(
                 tcp := t.tcp, nextPlayer := pid + 1,
                 players := s.players - {pid}, sessionToPlayer := s.sessionToPlayer - {sid})
            && t.tcp == Told(s, sid, [Tcp.AuthError(Tcp.Vetoed)]).tcp.(sessions := s.tcp.sessions - {sid})
  {
    RefusalIsWhy(cfg, s, request);
    VetoResult(cfg, s, sid, request);
    ToldOne(s, sid, Tcp.AuthError(Tcp.Vetoed));
  }

  /**
   What a refusal does: the session is told the reason, and unless the text was
   malformed or the name missing it is closed, as any closed session is. No player and
   no session entry is gained, and no id is used.
   */
  lemma RefusalResult(cfg: Config, s: Tables, sid: u16, request: AuthRequest, veto: bool, reason: Tcp.Refusal)
    requires Why(cfg, s, request, reason)
    ensures var t, told := Step(cfg, s, Packet(sid, Auth(request, veto))), Told(s, sid, [Tcp.AuthError(reason)]);
            && t == (if reason in [Tcp.InvalidJson, Tcp.UsernameRequired] || sid !in s.tcp.sessions then told
                     else CloseSession(told, sid))
            && (sid in t.tcp.sessions <==> sid in s.tcp.sessions && reason in [Tcp.InvalidJson, Tcp.UsernameRequired])
            && t.players.Items <= s.players.Items && t.sessionToPlayer.Items <= s.sessionToPlayer.Items
            && t.nextPlayer == s.nextPlayer
  {
    RefusalIsWhy(cfg, s, request);
    ToldOne(s, sid, Tcp.AuthError(reason));
    CloseTakesAway(Told(s, sid, [Tcp.AuthError(reason)]), sid);
  }

  lemma CloseTakesAway(s: Tables, sid: u16)
    ensures var t := CloseSession(s, sid);
            && t.players.Items <= s.players.Items && t.sessionToPlayer.Items <= s.sessionToPlayer.Items
            && t.nextPlayer == s.nextPlayer && t.tcp.sessions == s.tcp.sessions - {sid}
  {
  }
}
