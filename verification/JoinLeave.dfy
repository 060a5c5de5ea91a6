/**
 What the sessions are told about one player id: over every legal run the messages
 form lifetimes, each begun by an acceptance and ended by exactly one leave.
 */
module JoinLeave {
  import opened Bytes
  import opened GameServer
  import opened Lifecycle
  import Tcp = TcpServer

  /** `joined` says whether the join has been announced in this lifetime. */
  datatype Presence = Out | In(joined: bool) | Broken

  /** One message about `pid`: it enters, is spoken of only while in, and leaves. */
  function Advance(at: Presence, m: Tcp.Message, pid: u16): Presence
  {
    match m
    case AuthOk(p) => if p != pid then at else if at == Out then In(false) else Broken
    case PlayerLeave(p) => if p != pid then at else if at.In? then Out else Broken
    case PlayerJoin(p) => if p != pid then at else if at.In? then In(true) else Broken
    case VehicleSpawn(p, _) => if p == pid && !at.In? then Broken else at
    case VehicleDelete(p, _) => if p == pid && !at.In? then Broken else at
    case AuthError(_) => at
    case KickNotice => at
    case ServerInfo(_) => at
  }

  function Traced(sent: seq<Tcp.Outgoing>, pid: u16): Presence
  {
    if sent == [] then Out else Advance(Traced(sent[..|sent| - 1], pid), sent[|sent| - 1].message, pid)
  }

  lemma TracedNext(sent: seq<Tcp.Outgoing>, o: Tcp.Outgoing, pid: u16)
    ensures Traced(sent + [o], pid) == Advance(Traced(sent, pid), o.message, pid)
  {
    assert (sent + [o])[..|sent|] == sent;
  }

  /** The trace says who is in, and whose join was announced: those who are ready, bridges aside. */
  ghost predicate TraceMatches(s: Tables, pid: u16)
  {
    var at := Traced(s.tcp.sent, pid);
    if pid in s.players then
      at.In? && (s.players[pid].username != BRIDGE ==> (at.joined <==> s.players[pid].phase == Ready))
    else at == Out
  }

  lemma SendAllTraced(s: Tables, m: Tcp.Message, pid: u16)
    ensures Traced(SendAll(s, m).tcp.sent, pid) == Advance(Traced(s.tcp.sent, pid), m, pid)
  {
    TracedNext(s.tcp.sent, Tcp.Outgoing(s.tcp.sessions - {0xFFFF}, m), pid);
  }

  lemma SendTraced(s: Tables, sid: u16, m: Tcp.Message, pid: u16)
    ensures sid in s.tcp.sessions ==>
              Traced(Send(s, sid, m).tcp.sent, pid) == Advance(Traced(s.tcp.sent, pid), m, pid)
  {
    TracedNext(s.tcp.sent, Tcp.Outgoing({sid}, m), pid);
  }

  lemma CloseTraced(cfg: Config, s: Tables, sid: u16, pid: u16)
    requires Inv(cfg, s) && TraceMatches(s, pid)
    ensures TraceMatches(CloseSession(s, sid), pid)
  {
    if sid in s.sessionToPlayer {
      var q := s.sessionToPlayer[sid];
      TracedNext(s.tcp.sent, Tcp.Outgoing(s.tcp.sessions - {sid} - {0xFFFF}, Tcp.PlayerLeave(q)), pid);
    }
  }

  /** A message that is not about any player, to one session, and then perhaps the end of that session. */
  lemma NoticeTraced(cfg: Config, s: Tables, sid: u16, m: Tcp.Message, pid: u16)
    requires Inv(cfg, s) && TraceMatches(s, pid) && (m.AuthError? || m.KickNotice?)
    ensures TraceMatches(Send(s, sid, m), pid) && TraceMatches(Disconnect(Send(s, sid, m), sid), pid)
  {
    SendTraced(s, sid, m, pid);
    CloseTraced(cfg, Send(s, sid, m), sid, pid);
  }

  lemma AuthTraced(cfg: Config, s: Tables, sid: u16, request: AuthRequest, veto: bool, pid: u16)
    requires Inv(cfg, s) && TraceMatches(s, pid) && Assumed(cfg, s, Packet(sid, Auth(request, veto)))
    ensures TraceMatches(HandleAuth(cfg, s, sid, request, veto), pid)
  {
    match Refusal(cfg, s, request)
    case Some(reason) => NoticeTraced(cfg, s, sid, Tcp.AuthError(reason), pid);
    case None =>
      if veto && request.username != BRIDGE {
        VetoLeavesNoTrace(cfg, s, sid, request);
        SendTraced(s, sid, Tcp.AuthError(Tcp.Vetoed), pid);
      } else {
        WelcomeTraced(Register(s, sid, NewPlayer(s, request)), sid, NewPlayer(s, request), pid);
      }
  }

  lemma WelcomeTraced(s: Tables, sid: u16, p: Player, pid: u16)
    requires sid in s.tcp.sessions
    ensures Traced(Welcome(s, sid, p).tcp.sent, pid) == Advance(Traced(s.tcp.sent, pid), Tcp.AuthOk(p.id), pid)
  {
    SendTraced(s, sid, Tcp.AuthOk(p.id), pid);
    SendTraced(Send(s, sid, Tcp.AuthOk(p.id)), sid, Tcp.ServerInfo(|s.players|), pid);
  }

  /**
   An acceptance that hands a session the very id it has keeps the invariant, as
   `AuthKeepsInvIff` says, but begins a second lifetime of the id inside the first.
   */
  lemma SecondAcceptanceBreaksTrace(cfg: Config, s: Tables, sid: u16, request: AuthRequest)
    requires Inv(cfg, s) && Refusal(cfg, s, request) == None
    requires sid in s.sessionToPlayer && s.sessionToPlayer[sid] == NextId(s.nextPlayer)
    requires TraceMatches(s, NextId(s.nextPlayer))
    ensures Traced(HandleAuth(cfg, s, sid, request, false).tcp.sent, NextId(s.nextPlayer)) == Broken
  {
    WelcomeTraced(Register(s, sid, NewPlayer(s, request)), sid, NewPlayer(s, request), NextId(s.nextPlayer));
  }

  /** A broadcast about a live player's vehicle, with everyone's name and phase as before. */
  lemma VehicleTraced(s: Tables, t: Tables, m: Tcp.Message, q: u16, pid: u16)
    requires TraceMatches(s, pid) && q in s.players && t.players.Keys == s.players.Keys
    requires forall p :: p in s.players ==>
               t.players[p].username == s.players[p].username && t.players[p].phase == s.players[p].phase
    requires (m.VehicleSpawn? || m.VehicleDelete?) && m.playerId == q
    requires t.tcp.sent == SendAll(s, m).tcp.sent
    ensures TraceMatches(t, pid)
  {
    SendAllTraced(s, m, pid);
  }

  lemma ReadyTraced(s: Tables, q: u16, pid: u16)
    requires TraceMatches(s, pid) && q in s.players
    ensures TraceMatches(HandleReady(s, q), pid)
  {
    SendAllTraced(s, Tcp.PlayerJoin(q), pid);
  }

  lemma ControlTraced(cfg: Config, s: Tables, sid: u16, control: Control, pid: u16)
    requires Inv(cfg, s) && Assumed(cfg, s, Packet(sid, control)) && TraceMatches(s, pid)
    ensures TraceMatches(OnControl(cfg, s, sid, control), pid)
  {
    if control.Auth? {
      AuthTraced(cfg, s, sid, control.request, control.veto, pid);
    } else if sid in s.sessionToPlayer {
      var q, t := s.sessionToPlayer[sid], OnControl(cfg, s, sid, control);
      if control.SetReady? {
        ReadyTraced(s, q, pid);
      } else if t != s {
        var m := if control.Spawn? then Tcp.VehicleSpawn(q, |s.players[q].vehicles| % 0x100)
                 else Tcp.VehicleDelete(q, control.payload[0]);
        VehicleTraced(s, t, m, q, pid);
      }
    }
  }

  lemma StepTraced(cfg: Config, s: Tables, op: Op, pid: u16)
    requires Inv(cfg, s) && Assumed(cfg, s, op) && TraceMatches(s, pid)
    ensures TraceMatches(Step(cfg, s, op), pid)
  {
    match op
    case Packet(sid, control) => ControlTraced(cfg, s, sid, control, pid);
    case KickPlayer(q) =>
      if sid :| sid in s.sessionToPlayer && s.sessionToPlayer[sid] == q {
        NoticeTraced(cfg, s, sid, Tcp.KickNotice, pid);
      }
    case Close(sid) => CloseTraced(cfg, s, sid, pid);
    case _ =>
  }

  /**
   The join and leave trace of every player id, over all legal runs: the messages
   about an id form lifetimes that begin with its acceptance, mention it only
   while it is in, and end with one leave; it is in at the end exactly if it is a
   live player, and its join was announced exactly if that player is ready.
   */
  lemma {:induction false} RunTraced(cfg: Config, ops: seq<Op>, pid: u16)
    requires Legal(cfg, ops)
    ensures TraceMatches(After(cfg, ops), pid)
  {
    if ops != [] {
      var before := ops[..|ops| - 1];
      RunTraced(cfg, before, pid);
      RunKeepsInv(cfg, before);
      StepTraced(cfg, After(cfg, before), ops[|ops| - 1], pid);
    }
  }

  /** How often a message was sent. */
  function Count(sent: seq<Tcp.Outgoing>, m: Tcp.Message): nat
  {
    if sent == [] then 0
    else Count(sent[..|sent| - 1], m) + if sent[|sent| - 1].message == m then 1 else 0
  }

  /** An unbroken trace has as many leaves as entries, except for one if the player is still in. */
  lemma {:induction false} TraceBalances(sent: seq<Tcp.Outgoing>, pid: u16)
    requires Traced(sent, pid) != Broken
    ensures Count(sent, Tcp.AuthOk(pid))
            == Count(sent, Tcp.PlayerLeave(pid)) + if Traced(sent, pid).In? then 1 else 0
  {
    if sent != [] {
      TraceBalances(sent[..|sent| - 1], pid);
    }
  }

  /** Every accepted player leaves exactly once, however often its session is closed, or is still there. */
  lemma LeavesBalanceEntries(cfg: Config, ops: seq<Op>, pid: u16)
    requires Legal(cfg, ops)
    ensures var s := After(cfg, ops);
            Count(s.tcp.sent, Tcp.AuthOk(pid))
            == Count(s.tcp.sent, Tcp.PlayerLeave(pid)) + if pid in s.players then 1 else 0
  {
    RunTraced(cfg, ops, pid);
    TraceBalances(After(cfg, ops).tcp.sent, pid);
  }
}
