/**
 The vehicle table inside the server: its part of any legal run is a run of the
 table on its own, so what holds of those runs holds of the server's datagrams.
 */
module ServerSync {
  import opened Bytes
  import opened GameServer
  import opened Lifecycle
  import Vehicles = VehicleSync
  import Trace = VehicleTrace
  import Udp = UdpServer
  import Tcp = TcpServer

  /** What a step means for the vehicle table. */
  ghost function SyncOp(cfg: Config, s: Tables, op: Op): Option<Trace.Op>
  {
    match op
    case Packet(sid, Auth(request, _)) =>
      if sid in s.sessionToPlayer && Refusal(cfg, s, request).Some? && Closes(Refusal(cfg, s, request).value) then
        Some(Trace.Disconnect(s.sessionToPlayer[sid]))
      else None
    case Packet(sid, Remove(payload)) =>
      if sid in s.sessionToPlayer && |payload| >= 1 then Some(Trace.Delete(s.sessionToPlayer[sid], payload[0])) else None
    case Datagram(from, VehicleData(_, markedAsAI, Some(state)), fromAuthority) =>
      var pid := Udp.PlayerFromEndpoint(s.udp, from);
      if pid == NO_PLAYER || (fromAuthority && markedAsAI) then None else Some(Trace.Report(pid, state))
    case KickPlayer(pid) => if pid in s.players then Some(Trace.Disconnect(pid)) else None
    case Close(sid) => if sid in s.sessionToPlayer then Some(Trace.Disconnect(s.sessionToPlayer[sid])) else None
    case SyncTick => Some(Trace.Broadcast)
    case _ => None
  }

  /** The run of the vehicle table that a run of the server contains. */
  ghost function SyncOps(cfg: Config, ops: seq<Op>): seq<Trace.Op>
  {
    if ops == [] then []
    else
      var before := ops[..|ops| - 1];
      SyncOps(cfg, before) + match SyncOp(cfg, After(cfg, before), ops[|ops| - 1])
                             case None => []
                             case Some(o) => [o]
  }

  /** The packets of the vehicle table among everything sent. */
  function SyncSent(sent: seq<Udp.Datagram>): seq<Vehicles.Emission>
  {
    if sent == [] then []
    else
      var last := sent[|sent| - 1];
      SyncSent(sent[..|sent| - 1]) + if last.Sync? then [last.packet] else []
  }

  lemma SyncSentNext(sent: seq<Udp.Datagram>, d: Udp.Datagram)
    ensures SyncSent(sent + [d]) == SyncSent(sent) + if d.Sync? then [d.packet] else []
  {
    assert (sent + [d])[..|sent|] == sent;
  }

  lemma {:induction false} SendSyncSent(u: Udp.Udp, ms: seq<Vehicles.Emission>)
    ensures SyncSent(Udp.SendSync(u, ms).sent) == SyncSent(u.sent) + ms
    decreases |ms|
  {
    if ms == [] {
      assert SyncSent(u.sent) + ms == SyncSent(u.sent);
    } else {
      var d := Udp.Sync(ms[0], Udp.Recipients(u, ms[0].exclude));
      SyncSentNext(u.sent, d);
      SendSyncSent(u.(sent := u.sent + [d]), ms[1..]);
      Associates(SyncSent(u.sent), [ms[0]], ms[1..]);
      assert [ms[0]] + ms[1..] == ms;
    }
  }

  lemma CloseProjects(s: Tables, sid: u16)
    requires SessionsMatch(s) && NO_PLAYER !in s.players
    ensures CloseSession(s, sid).udp.sent == s.udp.sent
    ensures CloseSession(s, sid).entries
            == if sid in s.sessionToPlayer then Vehicles.WithoutOwner(s.entries, s.sessionToPlayer[sid]) else s.entries
  {
  }

  lemma KickProjects(cfg: Config, s: Tables, pid: u16)
    requires Inv(cfg, s)
    ensures Kick(s, pid).udp.sent == s.udp.sent
    ensures Kick(s, pid).entries == if pid in s.players then Vehicles.WithoutOwner(s.entries, pid) else s.entries
  {
    if sid :| sid in s.sessionToPlayer && s.sessionToPlayer[sid] == pid {
      CloseProjects(Send(s, sid, Tcp.KickNotice), sid);
    }
  }

  /** An authentication changes the table only where a refusal closes the session of a player. */
  lemma AuthProjects(cfg: Config, s: Tables, sid: u16, request: AuthRequest, veto: bool)
    requires Inv(cfg, s) && Assumed(cfg, s, Packet(sid, Auth(request, veto)))
    ensures var t, o := HandleAuth(cfg, s, sid, request, veto), SyncOp(cfg, s, Packet(sid, Auth(request, veto)));
            && t.entries == (if o == None then s.entries else Trace.Apply(s.entries, o.value))
            && t.udp.sent == s.udp.sent
  {
    match Refusal(cfg, s, request)
    case Some(reason) => CloseProjects(Send(s, sid, Tcp.AuthError(reason)), sid);
    case None => if veto && request.username != BRIDGE { VetoLeavesNoTrace(cfg, s, sid, request); }
  }

  lemma ControlProjects(cfg: Config, s: Tables, sid: u16, control: Control)
    requires Inv(cfg, s) && Assumed(cfg, s, Packet(sid, control))
    ensures var t, o := OnControl(cfg, s, sid, control), SyncOp(cfg, s, Packet(sid, control));
            && t.entries == (if o == None then s.entries else Trace.Apply(s.entries, o.value))
            && (o == None || o.value.Delete? || o.value.Disconnect?) && t.udp.sent == s.udp.sent
  {
    if control.Auth? { AuthProjects(cfg, s, sid, control.request, control.veto); }
  }

  lemma DatagramProjects(cfg: Config, s: Tables, from: Udp.Endpoint, d: Decoded, fromAuthority: bool)
    ensures var t, o := OnDatagram(s, from, d, fromAuthority), SyncOp(cfg, s, Datagram(from, d, fromAuthority));
            && t.entries == (if o == None then s.entries else Trace.Apply(s.entries, o.value))
            && (o == None || o.value.Report?)
            && SyncSent(t.udp.sent) == SyncSent(s.udp.sent)
  {
    match d
    case Ping(sequence) => SyncSentNext(s.udp.sent, Udp.Reply(from, PONG, sequence));
    case VehicleData(raw, _, _) =>
      var pid := Udp.PlayerFromEndpoint(s.udp, from);
      SyncSentNext(s.udp.sent, Udp.Relay(raw, pid, Udp.Recipients(s.udp, pid)));
    case Unknown =>
  }

  lemma StepProjects(cfg: Config, s: Tables, op: Op)
    requires Inv(cfg, s) && Assumed(cfg, s, op)
    ensures var t, o := Step(cfg, s, op), SyncOp(cfg, s, op);
            && t.entries == (if o == None then s.entries else Trace.Apply(s.entries, o.value))
            && SyncSent(t.udp.sent)
               == SyncSent(s.udp.sent) + (if o == None then [] else Trace.Output(s.entries, o.value))
  {
    assert SyncSent(s.udp.sent) + [] == SyncSent(s.udp.sent);
    match op
    case Accept =>
    case Packet(sid, control) => ControlProjects(cfg, s, sid, control);
    case Datagram(from, d, fromAuthority) => DatagramProjects(cfg, s, from, d, fromAuthority);
    case MapPlayer(pid, ep) =>
    case KickPlayer(pid) => KickProjects(cfg, s, pid);
    case Close(sid) => CloseProjects(s, sid);
    case SyncTick => SendSyncSent(s.udp, Vehicles.Emissions(s.entries));
  }

  /** The server's vehicle table is a run of the vehicle table on its own. */
  lemma {:induction false} RunProjects(cfg: Config, ops: seq<Op>)
    requires Legal(cfg, ops)
    ensures After(cfg, ops).entries == Trace.Entries(SyncOps(cfg, ops))
    ensures SyncSent(After(cfg, ops).udp.sent) == Trace.SentBy(SyncOps(cfg, ops))
  {
    if ops != [] {
      var before, op := ops[..|ops| - 1], ops[|ops| - 1];
      var s := After(cfg, before);
      RunProjects(cfg, before);
      RunKeepsInv(cfg, before);
      StepProjects(cfg, s, op);
      var o := SyncOp(cfg, s, op);
      if o.Some? {
        var all := SyncOps(cfg, before) + [o.value];
        assert all[..|all| - 1] == SyncOps(cfg, before);
      } else {
        assert SyncOps(cfg, before) + [] == SyncOps(cfg, before);
      }
    }
  }

  /** A vehicle updated since its last removal is in the table with its latest state, and its owner is live. */
  lemma UpdatedIsThere(cfg: Config, ops: seq<Op>, k: Vehicles.Key)
    requires Legal(cfg, ops)
    ensures k in Vehicles.Table(After(cfg, ops).entries) <==> Trace.UpdatesSince(SyncOps(cfg, ops), k) != []
    ensures k in Vehicles.Table(After(cfg, ops).entries) ==>
              && k.owner in After(cfg, ops).players
              && Vehicles.Table(After(cfg, ops).entries)[k].state == Trace.Last(Trace.UpdatesSince(SyncOps(cfg, ops), k))
  {
    var es := After(cfg, ops).entries;
    RunKeepsInv(cfg, ops);
    RunProjects(cfg, ops);
    Trace.RunKeepsStep(SyncOps(cfg, ops), k);
    Vehicles.TableAt(es, k);
    if k in Vehicles.Table(es) { assert es[Vehicles.Find(es, k)] in es; }
  }
}
