/**
 What a live player owes to the run since it was accepted: the request it came in
 with, whether it is ready, and how often its join was announced.
 */
module Lifetimes {
  import opened Bytes
  import opened GameServer
  import opened Lifecycle
  import opened JoinLeave
  import opened ServerVehicles
  import opened Authentication
  import opened Messages
  import Tcp = TcpServer

  /** A ready packet on the player's session. */
  predicate SaysReady(s: Tables, op: Op, pid: u16)
  {
    op.Packet? && op.control.SetReady? && op.sid in s.sessionToPlayer && s.sessionToPlayer[op.sid] == pid
  }

  /** How many steps the run has up to the last acceptance under the id, or none if there was none. */
  ghost function EnteredAt(cfg: Config, ops: seq<Op>, pid: u16): (n: nat)
    ensures n <= |ops|
  {
    if ops == [] then 0
    else if Enters(cfg, After(cfg, ops[..|ops| - 1]), ops[|ops| - 1], pid) then |ops|
    else EnteredAt(cfg, ops[..|ops| - 1], pid)
  }

  /** How many ready packets were handled on the player's session since then. */
  ghost function ReadySince(cfg: Config, ops: seq<Op>, pid: u16): nat
  {
    if ops == [] then 0
    else
      var s, op := After(cfg, ops[..|ops| - 1]), ops[|ops| - 1];
      if Enters(cfg, s, op, pid) then 0
      else ReadySince(cfg, ops[..|ops| - 1], pid) + if SaysReady(s, op, pid) then 1 else 0
  }

  // ---------- announcements ----------

  lemma {:induction false} CountAppend(a: seq<Tcp.Outgoing>, b: seq<Tcp.Outgoing>, m: Tcp.Message)
    ensures Count(a + b, m) == Count(a, m) + Count(b, m)
  {
    if b == [] {
      assert a + b == a;
    } else {
      var n := |b| - 1;
      CountAppend(a, b[..n], m);
      assert (a + b)[..|a + b| - 1] == a + b[..n];
    }
  }

  lemma CountNone(a: seq<Tcp.Outgoing>, m: Tcp.Message)
    requires forall o :: o in a ==> o.message != m
    ensures Count(a, m) == 0
  {
    if a != [] {
      assert a[|a| - 1] in a;
      CountNone(a[..|a| - 1], m);
    }
  }

  lemma AuthSaysNoJoin(cfg: Config, s: Tables, sid: u16, request: AuthRequest, veto: bool, o: Tcp.Outgoing)
    requires o in AuthSays(cfg, s, sid, request, veto)
    ensures !o.message.PlayerJoin?
  {
    if o in Farewell(s, sid) { assert o.message.PlayerLeave?; }
  }

  lemma JoinsSaid(cfg: Config, s: Tables, op: Op, pid: u16)
    requires Inv(cfg, s)
    ensures Count(Says(cfg, s, op), Tcp.PlayerJoin(pid)) == if SaysReady(s, op, pid) then 1 else 0
  {
    var said, join := Says(cfg, s, op), Tcp.PlayerJoin(pid);
    if SaysReady(s, op, pid) {
      assert said == [ToAll(s.tcp.sessions, join)];
      assert said[..0] == [];
    } else if op.Packet? && op.control.Auth? {
      forall o | o in said ensures !o.message.PlayerJoin? {
        AuthSaysNoJoin(cfg, s, op.sid, op.control.request, op.control.veto, o);
      }
      CountNone(said, join);
    } else {
      CountNone(said, join);
    }
  }

  /** A step announces the join once for a ready packet of the player, and never otherwise. */
  lemma StepAnnounces(cfg: Config, s: Tables, op: Op, pid: u16)
    requires Inv(cfg, s) && Assumed(cfg, s, op)
    ensures Count(Step(cfg, s, op).tcp.sent, Tcp.PlayerJoin(pid))
            == Count(s.tcp.sent, Tcp.PlayerJoin(pid)) + if SaysReady(s, op, pid) then 1 else 0
  {
    hide Step, Inv, Assumed, Says, SaysReady;
    StepSays(cfg, s, op);
    JoinsSaid(cfg, s, op, pid);
    CountAppend(s.tcp.sent, Says(cfg, s, op), Tcp.PlayerJoin(pid));
  }

  /** Since the last acceptance under an id its join was announced once for each ready packet of its session. */
  lemma {:induction false} JoinPerReady(cfg: Config, ops: seq<Op>, pid: u16)
    requires Legal(cfg, ops)
    ensures Count(After(cfg, ops).tcp.sent, Tcp.PlayerJoin(pid))
            == Count(After(cfg, ops[..EnteredAt(cfg, ops, pid)]).tcp.sent, Tcp.PlayerJoin(pid))
               + ReadySince(cfg, ops, pid)
  {
    var n := EnteredAt(cfg, ops, pid);
    if n == |ops| {
      assert ops[..n] == ops;
    } else {
      var before := ops[..|ops| - 1];
      JoinPerReady(cfg, before, pid);
      RunKeepsInv(cfg, before);
      StepAnnounces(cfg, After(cfg, before), ops[|ops| - 1], pid);
      assert ops[..n] == before[..n];
    }
  }

  // ---------- phases ----------

  /** The same player but for its phase and vehicles. */
  ghost predicate SamePlayer(p: Player, q: Player)
  {
    p == q.(phase := p.phase, vehicles := p.vehicles)
  }

  /** Live in `t` only if live in `s`, as the same player in the same phase. */
  ghost predicate StaysPut(s: Tables, t: Tables, pid: u16)
  {
    pid in t.players ==>
      && pid in s.players && SamePlayer(t.players[pid], s.players[pid])
      && t.players[pid].phase == s.players[pid].phase
  }

  lemma CloseStaysPut(s: Tables, sid: u16, pid: u16)
    ensures StaysPut(s, CloseSession(s, sid), pid) && StaysPut(s, Disconnect(s, sid), pid)
  {
  }

  lemma AuthPhase(cfg: Config, s: Tables, sid: u16, request: AuthRequest, veto: bool, pid: u16)
    ensures var t := HandleAuth(cfg, s, sid, request, veto);
            if Enters(cfg, s, Packet(sid, Auth(request, veto)), pid) then
              pid in t.players && t.players[pid] == Newcomer(pid, request)
            else StaysPut(s, t, pid)
  {
    match Refusal(cfg, s, request)
    case Some(reason) => CloseStaysPut(Send(s, sid, Tcp.AuthError(reason)), sid, pid);
    case None => if veto && request.username != BRIDGE { VetoResult(cfg, s, sid, request); }
  }

  lemma ControlPhase(cfg: Config, s: Tables, sid: u16, control: Control, pid: u16)
    requires Inv(cfg, s) && !control.Auth? && pid in OnControl(cfg, s, sid, control).players
    ensures var p := OnControl(cfg, s, sid, control).players[pid];
            && pid in s.players && SamePlayer(p, s.players[pid])
            && p.phase == if SaysReady(s, Packet(sid, control), pid) then Ready else s.players[pid].phase
  {
  }

  lemma StepPhase(cfg: Config, s: Tables, op: Op, pid: u16)
    requires Inv(cfg, s) && pid in Step(cfg, s, op).players
    ensures var p := Step(cfg, s, op).players[pid];
            if Enters(cfg, s, op, pid) then p == Newcomer(pid, op.control.request)
            else && pid in s.players && SamePlayer(p, s.players[pid])
                 && p.phase == if SaysReady(s, op, pid) then Ready else s.players[pid].phase
  {
    match op
    case Packet(sid, control) =>
      if control.Auth? {
        AuthPhase(cfg, s, sid, control.request, control.veto, pid);
      } else {
        ControlPhase(cfg, s, sid, control, pid);
      }
    case Close(sid) => CloseStaysPut(s, sid, pid);
    case KickPlayer(q) =>
      forall sid ensures StaysPut(s, KickSession(s, sid), pid) {
        CloseStaysPut(Send(s, sid, Tcp.KickNotice), sid, pid);
      }
    case _ =>
  }

  /** The step that accepted the player last. */
  ghost predicate CameWith(cfg: Config, s: Tables, op: Op, pid: u16, p: Player)
  {
    && Enters(cfg, s, op, pid) && Deserves(cfg, s, op.control.request)
    && SamePlayer(p, Newcomer(pid, op.control.request))
  }

  lemma JustEntered(cfg: Config, s: Tables, op: Op, pid: u16)
    requires Enters(cfg, s, op, pid)
    ensures var p := Newcomer(pid, op.control.request);
            CameWith(cfg, s, op, pid, p) && (p.phase == Ready <==> p.username == "##ai_bridge##")
  {
    RefusalIsWhy(cfg, s, op.control.request);
  }

  /**
   Every live player came in by a request that earned its admission at that moment and
   has its name and role since; and a player but a bridge is ready if and only if a
   ready packet was handled on its session since then.
   */
  lemma {:induction false} LivePlayer(cfg: Config, ops: seq<Op>, pid: u16)
    requires Legal(cfg, ops) && pid in After(cfg, ops).players
    ensures var n, p := EnteredAt(cfg, ops, pid), After(cfg, ops).players[pid];
            && n >= 1 && CameWith(cfg, After(cfg, ops[..n - 1]), ops[n - 1], pid, p)
            && (p.phase == Ready <==> p.username == "##ai_bridge##" || ReadySince(cfg, ops, pid) >= 1)
  {
    hide Inv, Assumed, Step, Enters, Newcomer, SaysReady;
    var before, op := ops[..|ops| - 1], ops[|ops| - 1];
    var s, n := After(cfg, before), EnteredAt(cfg, ops, pid);
    RunKeepsInv(cfg, before);
    StepPhase(cfg, s, op, pid);
    if Enters(cfg, s, op, pid) {
      assert ops[..n - 1] == before;
      JustEntered(cfg, s, op, pid);
    } else {
      LivePlayer(cfg, before, pid);
      assert ops[..n - 1] == before[..n - 1];
    }
  }
}
