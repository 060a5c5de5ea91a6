/** The player limit with handlers taken as atomic: it is never passed, whatever bridges do. */
module PlayerLimit {
  import opened Bytes
  import opened GameServer
  import opened Lifecycle
  import Tcp = TcpServer

  /** The players the limit is meant for. */
  function Normal(s: Tables): set<u16>
  {
    set pid | pid in s.players && s.players[pid].username != BRIDGE
  }

  ghost predicate WithinLimit(cfg: Config, s: Tables)
  {
    |Normal(s)| <= if cfg.maxPlayers > 0 then cfg.maxPlayers else 0
  }

  lemma SubsetSize(a: set<u16>, b: set<u16>)
    requires a <= b
    ensures |a| <= |b|
  {
    assert b == a + (b - a);
  }

  lemma FewerNormal(cfg: Config, s: Tables, t: Tables)
    requires WithinLimit(cfg, s) && Normal(t) <= Normal(s)
    ensures WithinLimit(cfg, t)
  {
    SubsetSize(Normal(t), Normal(s));
  }

  lemma CloseFrees(s: Tables, sid: u16)
    ensures Normal(CloseSession(s, sid)) <= Normal(s) && Normal(Disconnect(s, sid)) <= Normal(s)
  {
  }

  lemma AdmittedFits(cfg: Config, s: Tables, sid: u16, request: AuthRequest)
    requires WithinLimit(cfg, s) && Refusal(cfg, s, request) == None
    ensures WithinLimit(cfg, Register(s, sid, NewPlayer(s, request)))
  {
    var p := NewPlayer(s, request);
    var t := Register(s, sid, p);
    if request.username == BRIDGE {
      FewerNormal(cfg, s, t);
    } else {
      SubsetSize(Normal(s), s.players.Keys);
      assert Normal(t) <= Normal(s) + {p.id};
      SubsetSize(Normal(t), Normal(s) + {p.id});
    }
  }

  lemma AuthKeepsLimit(cfg: Config, s: Tables, sid: u16, request: AuthRequest, veto: bool)
    requires WithinLimit(cfg, s)
    ensures WithinLimit(cfg, HandleAuth(cfg, s, sid, request, veto))
  {
    var t := HandleAuth(cfg, s, sid, request, veto);
    match Refusal(cfg, s, request)
    case Some(reason) =>
      CloseFrees(Send(s, sid, Tcp.AuthError(reason)), sid);
      FewerNormal(cfg, s, t);
    case None =>
      var r := Register(s, sid, NewPlayer(s, request));
      AdmittedFits(cfg, s, sid, request);
      var pid := NextId(s.nextPlayer);
      CloseFrees(Send(r.(players := r.players - {pid}, sessionToPlayer := r.sessionToPlayer - {sid}), sid,
                      Tcp.AuthError(Tcp.Vetoed)), sid);
      FewerNormal(cfg, r, t);
  }

  /** Only an authentication adds players. */
  lemma OthersFree(cfg: Config, s: Tables, op: Op)
    requires !(op.Packet? && op.control.Auth?)
    ensures Normal(Step(cfg, s, op)) <= Normal(s)
  {
    match op
    case KickPlayer(pid) =>
      forall a ensures Normal(KickSession(s, a)) <= Normal(s) { CloseFrees(Send(s, a, Tcp.KickNotice), a); }
    case Close(sid) => CloseFrees(s, sid);
    case _ =>
  }

  lemma StepKeepsLimit(cfg: Config, s: Tables, op: Op)
    requires WithinLimit(cfg, s)
    ensures WithinLimit(cfg, Step(cfg, s, op))
  {
    if op.Packet? && op.control.Auth? {
      AuthKeepsLimit(cfg, s, op.sid, op.control.request, op.control.veto);
    } else {
      OthersFree(cfg, s, op);
      FewerNormal(cfg, s, Step(cfg, s, op));
    }
  }

  /** After any run of atomic steps, legal or not, there are no more players than the limit, bridges aside. */
  lemma {:induction false} RunKeepsLimit(cfg: Config, ops: seq<Op>)
    ensures WithinLimit(cfg, After(cfg, ops))
  {
    if ops == [] {
      assert Normal(INITIAL) == {};
    } else {
      RunKeepsLimit(cfg, ops[..|ops| - 1]);
      StepKeepsLimit(cfg, After(cfg, ops[..|ops| - 1]), ops[|ops| - 1]);
    }
  }
}
