/**
 Among its first 65534 player ids a server cannot hand out one twice, so the
 assumption of a fresh player id holds by itself.
 */
module ShortRuns {
  import opened Bytes
  import opened GameServer
  import opened Lifecycle
  import Tcp = TcpServer

  /** The assumptions without the one on player ids. */
  ghost predicate AssumedButIds(cfg: Config, s: Tables, op: Op)
  {
    match op
    case Packet(sid, Auth(request, veto)) =>
      Refusal(cfg, s, request) == None ==>
        sid !in s.sessionToPlayer && ((veto && request.username != BRIDGE) || sid in s.tcp.sessions)
    case MapPlayer(_, _) => Assumed(cfg, s, op)
    case _ => true
  }

  ghost predicate LegalButIds(cfg: Config, ops: seq<Op>)
  {
    ops == [] ||
    var before, op := ops[..|ops| - 1], ops[|ops| - 1];
    LegalButIds(cfg, before) && AssumedButIds(cfg, After(cfg, before), op)
  }

  ghost predicate Below(s: Tables, n: nat)
  {
    s.nextPlayer <= n && forall pid :: pid in s.players ==> pid < s.nextPlayer
  }

  lemma CloseStaysBelow(s: Tables, sid: u16, n: nat)
    requires Below(s, n)
    ensures Below(CloseSession(s, sid), n) && Below(Disconnect(s, sid), n)
  {
  }

  /** How many ids a run hands out. */
  ghost function Allocations(cfg: Config, ops: seq<Op>): nat
  {
    if ops == [] then 0
    else
      var before, op := ops[..|ops| - 1], ops[|ops| - 1];
      Allocations(cfg, before) + if HandsOut(cfg, After(cfg, before), op) then 1 else 0
  }

  lemma AuthStaysBelow(cfg: Config, s: Tables, sid: u16, request: AuthRequest, veto: bool, n: nat)
    requires Below(s, n)
    requires Refusal(cfg, s, request) == None ==> s.nextPlayer <= 65534
    ensures Below(HandleAuth(cfg, s, sid, request, veto), n + if Refusal(cfg, s, request) == None then 1 else 0)
  {
    match Refusal(cfg, s, request)
    case Some(reason) => CloseStaysBelow(Send(s, sid, Tcp.AuthError(reason)), sid, n);
    case None =>
      var t := Register(s, sid, NewPlayer(s, request));
      assert Below(t, n + 1);
      var u := t.(players := t.players - {NextId(s.nextPlayer)}, sessionToPlayer := t.sessionToPlayer - {sid});
      CloseStaysBelow(Send(u, sid, Tcp.AuthError(Tcp.Vetoed)), sid, n + 1);
  }

  lemma StepStaysBelow(cfg: Config, s: Tables, op: Op, n: nat)
    requires Below(s, n) && (HandsOut(cfg, s, op) ==> n <= 65534)
    ensures Below(Step(cfg, s, op), n + if HandsOut(cfg, s, op) then 1 else 0)
  {
    match op
    case Packet(sid, control) =>
      if control.Auth? { AuthStaysBelow(cfg, s, sid, control.request, control.veto, n); }
    case KickPlayer(pid) =>
      if sid :| sid in s.sessionToPlayer && s.sessionToPlayer[sid] == pid {
        forall a ensures Below(KickSession(s, a), n) { CloseStaysBelow(Send(s, a, Tcp.KickNotice), a, n); }
      }
    case Close(sid) => CloseStaysBelow(s, sid, n);
    case _ =>
  }

  /**
   Until a run has handed out 65534 ids it is legal without the assumption on ids,
   however many steps it takes, so the invariant holds after it.
   */
  lemma {:induction false} ShortRunsAreLegal(cfg: Config, ops: seq<Op>)
    requires LegalButIds(cfg, ops) && Allocations(cfg, ops) <= 65534
    ensures Legal(cfg, ops) && Inv(cfg, After(cfg, ops))
    ensures Below(After(cfg, ops), 1 + Allocations(cfg, ops))
  {
    if ops != [] {
      var before := ops[..|ops| - 1];
      ShortRunsAreLegal(cfg, before);
      StepStaysBelow(cfg, After(cfg, before), ops[|ops| - 1], 1 + Allocations(cfg, before));
    }
    RunKeepsInv(cfg, ops);
  }
}
