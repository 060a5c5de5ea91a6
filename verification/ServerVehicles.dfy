/**
 The vehicles of a player inside the server: along any legal run they are those
 of a run of the vehicle list alone, over the player's own spawns and deletes.
 */
module ServerVehicles {
  import opened Bytes
  import opened GameServer
  import opened Lifecycle
  import opened PlayerVehicles
  import Tcp = TcpServer

  /** The step accepts a player and gives it this id. */
  ghost predicate Enters(cfg: Config, s: Tables, op: Lifecycle.Op, pid: u16)
  {
    Admits(cfg, s, op) && NextId(s.nextPlayer) == pid
  }

  /** What the step asks of the player's vehicles. */
  function VehicleOp(s: Tables, op: Lifecycle.Op, pid: u16): seq<PlayerVehicles.Op>
  {
    match op
    case Packet(sid, Spawn(wellFormed)) =>
      if sid in s.sessionToPlayer && s.sessionToPlayer[sid] == pid && wellFormed then [SpawnOne] else []
    case Packet(sid, Remove(payload)) =>
      if sid in s.sessionToPlayer && s.sessionToPlayer[sid] == pid && |payload| >= 1 then [DeleteOne(payload[0])] else []
    case _ => []
  }

  /** The spawns and deletes of the player since it was accepted. */
  ghost function VehicleOps(cfg: Config, ops: seq<Lifecycle.Op>, pid: u16): seq<PlayerVehicles.Op>
  {
    if ops == [] then []
    else
      var before, op := ops[..|ops| - 1], ops[|ops| - 1];
      if Enters(cfg, After(cfg, before), op, pid) then []
      else VehicleOps(cfg, before, pid) + VehicleOp(After(cfg, before), op, pid)
  }

  // ---------- one step ----------

  /** Live in `t` only if live in `s`, with the same vehicles. */
  ghost predicate SameVehicles(s: Tables, t: Tables, pid: u16)
  {
    pid in t.players ==> pid in s.players && t.players[pid].vehicles == s.players[pid].vehicles
  }

  lemma CloseKeepsVehicles(s: Tables, sid: u16, pid: u16)
    ensures SameVehicles(s, CloseSession(s, sid), pid) && SameVehicles(s, Disconnect(s, sid), pid)
  {
  }

  lemma AuthVehicles(cfg: Config, s: Tables, sid: u16, request: AuthRequest, veto: bool, pid: u16)
    ensures var t := HandleAuth(cfg, s, sid, request, veto);
            if Enters(cfg, s, Packet(sid, Auth(request, veto)), pid) then
              pid in t.players && t.players[pid].vehicles == []
            else SameVehicles(s, t, pid)
  {
    match Refusal(cfg, s, request)
    case Some(reason) => CloseKeepsVehicles(Send(s, sid, Tcp.AuthError(reason)), sid, pid);
    case None => if veto && request.username != BRIDGE { VetoResult(cfg, s, sid, request); }
  }

  lemma ControlVehicles(cfg: Config, s: Tables, sid: u16, control: Control, pid: u16)
    requires Inv(cfg, s) && !control.Auth? && pid in OnControl(cfg, s, sid, control).players
    ensures var t, o := OnControl(cfg, s, sid, control), VehicleOp(s, Packet(sid, control), pid);
            && pid in s.players
            && t.players[pid].vehicles
               == if o == [] then s.players[pid].vehicles else Apply(cfg.vehicleLimit, s.players[pid].vehicles, o[0])
  {
  }

  lemma StepVehicles(cfg: Config, s: Tables, op: Lifecycle.Op, pid: u16)
    requires Inv(cfg, s) && pid in Step(cfg, s, op).players
    ensures var t, o := Step(cfg, s, op), VehicleOp(s, op, pid);
            if Enters(cfg, s, op, pid) then t.players[pid].vehicles == []
            else && pid in s.players
                 && t.players[pid].vehicles
                    == if o == [] then s.players[pid].vehicles else Apply(cfg.vehicleLimit, s.players[pid].vehicles, o[0])
  {
    match op
    case Packet(sid, control) =>
      if control.Auth? {
        AuthVehicles(cfg, s, sid, control.request, control.veto, pid);
      } else {
        ControlVehicles(cfg, s, sid, control, pid);
      }
    case Close(sid) => CloseKeepsVehicles(s, sid, pid);
    case KickPlayer(q) =>
      forall sid ensures SameVehicles(s, KickSession(s, sid), pid) {
        CloseKeepsVehicles(Send(s, sid, Tcp.KickNotice), sid, pid);
      }
    case _ =>
  }

  // ---------- runs ----------

  lemma OneMoreOp(limit: int, ops: seq<PlayerVehicles.Op>, o: PlayerVehicles.Op)
    ensures Run(limit, ops + [o]) == Apply(limit, Run(limit, ops), o)
  {
    assert (ops + [o])[..|ops|] == ops;
  }

  /** The vehicles of a live player are what its own spawns and deletes make of the empty list. */
  lemma {:induction false} VehiclesProject(cfg: Config, ops: seq<Lifecycle.Op>, pid: u16)
    requires Legal(cfg, ops) && pid in After(cfg, ops).players
    ensures After(cfg, ops).players[pid].vehicles == Run(cfg.vehicleLimit, VehicleOps(cfg, ops, pid))
  {
    var before, op := ops[..|ops| - 1], ops[|ops| - 1];
    var s := After(cfg, before);
    RunKeepsInv(cfg, before);
    StepVehicles(cfg, s, op, pid);
    if !Enters(cfg, s, op, pid) {
      VehiclesProject(cfg, before, pid);
      var o, all := VehicleOp(s, op, pid), VehicleOps(cfg, before, pid);
      if o == [] {
        assert all + o == all;
      } else {
        assert o == [o[0]];
        OneMoreOp(cfg.vehicleLimit, all, o[0]);
      }
    }
  }

  /** A player that deletes its highest id, if any, has the ids 0 to n - 1, below the limit. */
  lemma DisciplinedPlayerCounts(cfg: Config, ops: seq<Lifecycle.Op>, pid: u16)
    requires Legal(cfg, ops) && pid in After(cfg, ops).players
    requires 0 <= cfg.vehicleLimit <= 0x100 && LastFirst(cfg.vehicleLimit, VehicleOps(cfg, ops, pid))
    ensures var vs := After(cfg, ops).players[pid].vehicles; Counting(vs) && |vs| <= cfg.vehicleLimit
  {
    VehiclesProject(cfg, ops, pid);
    LastFirstCounts(cfg.vehicleLimit, VehicleOps(cfg, ops, pid));
  }

  /** At all moments since it was accepted the player's vehicles had different ids. */
  ghost predicate UniqueSince(cfg: Config, ops: seq<Lifecycle.Op>, pid: u16)
  {
    ops == [] ||
    var before := ops[..|ops| - 1];
    Enters(cfg, After(cfg, before), ops[|ops| - 1], pid)
    || (UniqueSince(cfg, before, pid)
        && (pid in After(cfg, ops).players ==> Unique(After(cfg, ops).players[pid].vehicles)))
  }

  lemma AlwaysUniqueNext(limit: int, ops: seq<PlayerVehicles.Op>, o: PlayerVehicles.Op)
    ensures AlwaysUnique(limit, ops + [o]) <==> AlwaysUnique(limit, ops) && Unique(Run(limit, ops + [o]))
  {
    var all := ops + [o];
    assert all[..|all|] == all;
    assert forall n :: 0 <= n <= |ops| ==> all[..n] == ops[..n];
    if AlwaysUnique(limit, all) {
      forall n | 0 <= n <= |ops| ensures Unique(Run(limit, ops[..n])) { assert Unique(Run(limit, all[..n])); }
      assert Unique(Run(limit, all[..|all|]));
    }
  }

  lemma AlwaysUniqueHere(limit: int, ops: seq<PlayerVehicles.Op>)
    requires AlwaysUnique(limit, ops)
    ensures Unique(Run(limit, ops))
  {
    assert ops[..|ops|] == ops;
  }

  lemma {:induction false} UniqueSinceProjects(cfg: Config, ops: seq<Lifecycle.Op>, pid: u16)
    requires Legal(cfg, ops) && pid in After(cfg, ops).players
    ensures UniqueSince(cfg, ops, pid) <==> AlwaysUnique(cfg.vehicleLimit, VehicleOps(cfg, ops, pid))
  {
    var before, op := ops[..|ops| - 1], ops[|ops| - 1];
    var s, limit := After(cfg, before), cfg.vehicleLimit;
    RunKeepsInv(cfg, before);
    StepVehicles(cfg, s, op, pid);
    VehiclesProject(cfg, ops, pid);
    if Enters(cfg, s, op, pid) {
      assert AlwaysUnique(limit, []);
    } else {
      UniqueSinceProjects(cfg, before, pid);
      var o, all := VehicleOp(s, op, pid), VehicleOps(cfg, before, pid);
      if o == [] {
        assert all + o == all;
        if AlwaysUnique(limit, all) { AlwaysUniqueHere(limit, all); }
      } else {
        assert o == [o[0]];
        AlwaysUniqueNext(limit, all, o[0]);
      }
    }
  }

  /** On the server: a player's ids stay different exactly if each of its spawns let through finds its id free. */
  lemma PlayerUniqueIff(cfg: Config, ops: seq<Lifecycle.Op>, pid: u16)
    requires Legal(cfg, ops) && pid in After(cfg, ops).players
    ensures UniqueSince(cfg, ops, pid) <==> AlwaysFree(cfg.vehicleLimit, VehicleOps(cfg, ops, pid))
  {
    UniqueSinceProjects(cfg, ops, pid);
    UniqueIff(cfg.vehicleLimit, VehicleOps(cfg, ops, pid));
  }

  // ---------- a run with equal ids ----------

  ghost predicate OneDriver(cfg: Config, ops: seq<Lifecycle.Op>, own: seq<PlayerVehicles.Op>)
  {
    && Legal(cfg, ops) && After(cfg, ops).sessionToPlayer == map[1 := 1] && 1 in After(cfg, ops).players
    && VehicleOps(cfg, ops, 1) == own
  }

  lemma DriverActs(cfg: Config, ops: seq<Lifecycle.Op>, own: seq<PlayerVehicles.Op>,
                   control: Control, o: PlayerVehicles.Op)
    requires OneDriver(cfg, ops, own)
    requires (control == Spawn(true) && o == SpawnOne) || (o.DeleteOne? && control == Remove([o.vid]))
    ensures OneDriver(cfg, ops + [Packet(1, control)], own + [o])
  {
    OneMoreStep(cfg, ops, Packet(1, control));
    assert (ops + [Packet(1, control)])[..|ops|] == ops;
  }

  lemma DriverIsThere(cfg: Config)
    requires cfg.maxPlayers >= 1
    ensures OneDriver(cfg, [Accept] + [Login(cfg, 1)], [])
  {
    var one: seq<Lifecycle.Op> := [Accept];
    assert [] + one == one && (one + [Login(cfg, 1)])[..1] == one;
    OneMoreStep(cfg, [], Accept);
    OneMoreStep(cfg, one, Login(cfg, 1));
    LoginEnters(cfg, After(cfg, one), 1);
    assert |DRIVER| != |BRIDGE|;
  }

  function RepeatingRun(cfg: Config): seq<Lifecycle.Op>
  {
    [Accept] + [Login(cfg, 1)] + [Packet(1, Spawn(true))] + [Packet(1, Spawn(true))]
    + [Packet(1, Remove([0]))] + [Packet(1, Spawn(true))]
  }

  /** A legal run of the server after which a player has two vehicles of one id. */
  lemma ServerIdsCanRepeat(cfg: Config)
    requires cfg.maxPlayers >= 1 && cfg.vehicleLimit >= 2
    ensures Legal(cfg, RepeatingRun(cfg)) && 1 in After(cfg, RepeatingRun(cfg)).players
    ensures After(cfg, RepeatingRun(cfg)).players[1].vehicles == [1, 1]
  {
    hide Legal, After, VehicleOps, Run, Login;
    var a := [Accept] + [Login(cfg, 1)];
    var b := a + [Packet(1, Spawn(true))];
    var c := b + [Packet(1, Spawn(true))];
    var d := c + [Packet(1, Remove([0]))];
    DriverIsThere(cfg);
    DriverActs(cfg, a, [], Spawn(true), SpawnOne);
    DriverActs(cfg, b, [] + [SpawnOne], Spawn(true), SpawnOne);
    DriverActs(cfg, c, [] + [SpawnOne] + [SpawnOne], Remove([0]), DeleteOne(0));
    DriverActs(cfg, d, [] + [SpawnOne] + [SpawnOne] + [DeleteOne(0)], Spawn(true), SpawnOne);
    assert [] + [SpawnOne] + [SpawnOne] + [DeleteOne(0)] + [SpawnOne] == [SpawnOne, SpawnOne, DeleteOne(0), SpawnOne];
    VehiclesProject(cfg, RepeatingRun(cfg), 1);
    IdsCanRepeat(cfg.vehicleLimit);
  }
}
