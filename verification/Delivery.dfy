/**
 Who is sent what: the recipients of every vehicle packet along a run, and
 exactly which players are sent the latest state of a vehicle.
 */
module Delivery {
  import opened Bytes
  import opened Packet
  import opened GameServer
  import opened Lifecycle
  import opened ServerSync
  import Vehicles = VehicleSync
  import Trace = VehicleTrace
  import Udp = UdpServer
  import Tcp = TcpServer

  // ---------- what a step sends ----------

  /** Packets of one tick, each addressed to everyone mapped but its owner. */
  function Addressed(u: Udp.Udp, ms: seq<Vehicles.Emission>): seq<Udp.Datagram>
  {
    if ms == [] then []
    else [Udp.Sync(ms[0], map pid | pid in u.toEp && pid != ms[0].exclude :: u.toEp[pid])] + Addressed(u, ms[1..])
  }

  lemma {:induction false} SendSyncAddresses(u: Udp.Udp, v: Udp.Udp, ms: seq<Vehicles.Emission>)
    requires v.toEp == u.toEp
    ensures Udp.SendSync(v, ms).sent == v.sent + Addressed(u, ms)
    decreases |ms|
  {
    if ms == [] {
      assert v.sent + [] == v.sent;
    } else {
      var d := Udp.Sync(ms[0], Udp.Recipients(v, ms[0].exclude));
      SendSyncAddresses(u, v.(sent := v.sent + [d]), ms[1..]);
      Associates(v.sent, [d], Addressed(u, ms[1..]));
    }
  }

  /** The datagrams a step adds to those already sent. */
  function Sends(s: Tables, op: Op): seq<Udp.Datagram>
  {
    match op
    case SyncTick => Addressed(s.udp, Vehicles.Emissions(s.entries))
    case Datagram(from, Ping(sequence), _) => [Udp.Reply(from, PONG, sequence)]
    case Datagram(from, VehicleData(raw, markedAsAI, _), fromAuthority) =>
      var pid := Udp.PlayerFromEndpoint(s.udp, from);
      if pid != NO_PLAYER && fromAuthority && markedAsAI then [Udp.Relay(raw, pid, Udp.Recipients(s.udp, pid))] else []
    case _ => []
  }

  lemma StepSends(cfg: Config, s: Tables, op: Op)
    requires Inv(cfg, s) && Assumed(cfg, s, op)
    ensures Step(cfg, s, op).udp.sent == s.udp.sent + Sends(s, op)
  {
    assert s.udp.sent + [] == s.udp.sent;
    match op
    case Accept =>
    case Packet(sid, control) => ControlProjects(cfg, s, sid, control);
    case Datagram(from, d, fromAuthority) =>
    case MapPlayer(pid, ep) =>
    case KickPlayer(pid) => KickProjects(cfg, s, pid);
    case Close(sid) => CloseProjects(s, sid);
    case SyncTick => SendSyncAddresses(s.udp, s.udp, Vehicles.Emissions(s.entries));
  }

  // ---------- recipients along a run ----------

  lemma {:induction false} AddressedAt(u: Udp.Udp, ms: seq<Vehicles.Emission>, d: Udp.Datagram)
    requires d in Addressed(u, ms)
    ensures d.Sync? && d.packet in ms && d.recipients == Udp.Recipients(u, d.packet.exclude)
  {
    if d != Addressed(u, ms)[0] { AddressedAt(u, ms[1..], d); }
  }

  lemma {:induction false} OwnersAreLeftOut(es: seq<Vehicles.Entry>, m: Vehicles.Emission)
    requires m in Vehicles.Emissions(es)
    ensures m.exclude == m.update.sender
  {
    if m !in Vehicles.Emit(es[0]) { OwnersAreLeftOut(es[1..], m); }
  }

  /** The datagram is a packet of a tick on these tables: everyone mapped, but its owner, at their endpoints. */
  ghost predicate SentOn(s: Tables, d: Udp.Datagram)
  {
    && d.Sync? && d.packet in Vehicles.Emissions(s.entries)
    && d.recipients == map pid | pid in s.udp.toEp && pid != d.packet.update.sender :: s.udp.toEp[pid]
  }

  lemma OnlyTicksSendPackets(s: Tables, op: Op, d: Udp.Datagram)
    requires d in Sends(s, op) && d.Sync?
    ensures op == SyncTick && SentOn(s, d)
  {
    assert op == SyncTick;
    AddressedAt(s.udp, Vehicles.Emissions(s.entries), d);
    OwnersAreLeftOut(s.entries, d.packet);
  }

  /** Every vehicle packet ever sent was sent by a tick of the run, on the tables of that moment. */
  lemma {:induction false} EveryPacketAddressed(cfg: Config, ops: seq<Op>, d: Udp.Datagram) returns (i: nat)
    requires Legal(cfg, ops) && d in After(cfg, ops).udp.sent && d.Sync?
    ensures i < |ops| && ops[i] == SyncTick && SentOn(After(cfg, ops[..i]), d)
  {
    var before, op := ops[..|ops| - 1], ops[|ops| - 1];
    RunKeepsInv(cfg, before);
    StepSends(cfg, After(cfg, before), op);
    if d in After(cfg, before).udp.sent {
      i := EveryPacketAddressed(cfg, before, d);
      assert ops[..i] == before[..i];
    } else {
      i := |before|;
      OnlyTicksSendPackets(After(cfg, before), op, d);
    }
  }

  // ---------- the latest state ----------

  /** The vehicle packets about `k`, with their recipients. */
  function SyncLog(sent: seq<Udp.Datagram>, k: Vehicles.Key): seq<Udp.Datagram>
  {
    Filter((d: Udp.Datagram) => d.Sync? && Vehicles.Concerns(d.packet, k), sent)
  }

  /** The step updates the vehicle or removes it. */
  ghost predicate Touches(cfg: Config, s: Tables, op: Op, k: Vehicles.Key)
  {
    var o := SyncOp(cfg, s, op);
    o.Some? && (Trace.Removes(o.value, k) || Trace.Reported(o.value, k) != [])
  }

  /** The packets about `k` since it was last updated: those that carry its latest state. */
  ghost function SinceUpdate(cfg: Config, ops: seq<Op>, k: Vehicles.Key): seq<Udp.Datagram>
  {
    if ops == [] then []
    else
      var before, op := ops[..|ops| - 1], ops[|ops| - 1];
      if Touches(cfg, After(cfg, before), op, k) then []
      else SinceUpdate(cfg, before, k) + SyncLog(Sends(After(cfg, before), op), k)
  }

  /** The first tick after the last update. */
  ghost function DeliveryTick(cfg: Config, ops: seq<Op>, k: Vehicles.Key): (i: Option<nat>)
    ensures i.Some? ==> i.value < |ops|
  {
    if ops == [] then None
    else
      var before, op := ops[..|ops| - 1], ops[|ops| - 1];
      if Touches(cfg, After(cfg, before), op, k) then None
      else if op == SyncTick && DeliveryTick(cfg, before, k) == None then Some(|before|)
      else DeliveryTick(cfg, before, k)
  }

  /** Some packet that carries the latest state of `k` was addressed to `q`. */
  ghost predicate WasSentLatest(cfg: Config, ops: seq<Op>, k: Vehicles.Key, q: u16)
  {
    exists d :: d in SinceUpdate(cfg, ops, k) && d.Sync? && q in d.recipients
  }

  lemma {:induction false} AddressedAbout(u: Udp.Udp, ms: seq<Vehicles.Emission>, k: Vehicles.Key)
    ensures SyncLog(Addressed(u, ms), k) == Addressed(u, Vehicles.About(ms, k))
  {
    if ms != [] {
      AddressedAbout(u, ms[1..], k);
      var d := Addressed(u, ms)[0];
      assert Addressed(u, ms)[1..] == Addressed(u, ms[1..]);
      if Vehicles.Concerns(ms[0], k) {
        assert Vehicles.About(ms, k) == [ms[0]] + Vehicles.About(ms[1..], k);
        assert ([ms[0]] + Vehicles.About(ms[1..], k))[1..] == Vehicles.About(ms[1..], k);
      } else {
        assert Vehicles.About(ms, k) == Vehicles.About(ms[1..], k);
      }
    }
  }

  /** The cell of one vehicle in the table, if it is there. */
  function CellOf(es: seq<Vehicles.Entry>, k: Vehicles.Key): Option<Vehicles.Cell>
  {
    if k in Vehicles.Table(es) then Some(Vehicles.Table(es)[k]) else None
  }

  function NextCell(c: Option<Vehicles.Cell>, o: Option<Trace.Op>, k: Vehicles.Key): Option<Vehicles.Cell>
  {
    match o
    case None => c
    case Some(Report(owner, state)) =>
      if Vehicles.Key(owner, state.vehicleId) != k then c
      else Some(Vehicles.Cell(state, if c.Some? then c.value.sequence else 0, true))
    case Some(Broadcast) =>
      if c.Some? && c.value.dirty then
        Some(Vehicles.Cell(c.value.state, Vehicles.NextSeq(c.value.sequence), false))
      else c
    case Some(_) => if Trace.Removes(o.value, k) then None else c
  }

  lemma CellAfter(es: seq<Vehicles.Entry>, o: Trace.Op, k: Vehicles.Key)
    requires Vehicles.Distinct(es)
    ensures CellOf(Trace.Apply(es, o), k) == NextCell(CellOf(es, k), Some(o), k)
  {
    match o
    case Report(owner, state) => Vehicles.UpdateRefines(es, owner, state);
    case Broadcast => Vehicles.BroadcastRefines(es);
    case Disconnect(owner) => Vehicles.DisconnectRefines(es, owner);
    case Delete(owner, vehicleId) => Vehicles.DeleteRefines(es, Vehicles.Key(owner, vehicleId));
  }

  lemma StepMovesCell(cfg: Config, s: Tables, op: Op, k: Vehicles.Key)
    requires Inv(cfg, s) && Assumed(cfg, s, op)
    ensures CellOf(Step(cfg, s, op).entries, k) == NextCell(CellOf(s.entries, k), SyncOp(cfg, s, op), k)
  {
    StepProjects(cfg, s, op);
    if SyncOp(cfg, s, op).Some? { CellAfter(s.entries, SyncOp(cfg, s, op).value, k); }
  }

  /** The packet that carries what is in the cell, and whom it goes to. */
  function Carrying(u: Udp.Udp, k: Vehicles.Key, c: Vehicles.Cell): Udp.Datagram
  {
    Udp.Sync(Vehicles.Emission(Update(k.owner, c.sequence, c.state), k.owner), Udp.Recipients(u, k.owner))
  }

  /** A step sends a packet about the vehicle only if it is a tick and the vehicle was updated. */
  lemma StepLogs(s: Tables, op: Op, k: Vehicles.Key)
    requires Vehicles.Distinct(s.entries)
    ensures var c := CellOf(s.entries, k);
            SyncLog(Sends(s, op), k)
            == if op == SyncTick && c.Some? && c.value.dirty then
                 [Carrying(s.udp, k, NextCell(c, Some(Trace.Broadcast), k).value)]
               else []
  {
    if op == SyncTick {
      AddressedAbout(s.udp, Vehicles.Emissions(s.entries), k);
      Vehicles.EmissionsAbout(s.entries, k);
    } else {
      var ds := Sends(s, op);
      if ds != [] {
        assert ds == [ds[0]] && !ds[0].Sync?;
        NotLogged(ds[0], k);
      }
    }
  }

  lemma NotLogged(d: Udp.Datagram, k: Vehicles.Key)
    requires !d.Sync?
    ensures SyncLog([d], k) == []
  {
    FilterOne((x: Udp.Datagram) => x.Sync? && Vehicles.Concerns(x.packet, k), d);
  }

  lemma TicksBroadcast(cfg: Config, s: Tables, op: Op)
    ensures op == SyncTick <==> SyncOp(cfg, s, op) == Some(Trace.Broadcast)
  {
  }

  /** What is known of a vehicle's cell, of its packets since the last update, and of the tick that sent them. */
  ghost predicate Delivered(k: Vehicles.Key, c: Option<Vehicles.Cell>, since: seq<Udp.Datagram>,
                            tick: Option<nat>, at: Option<Udp.Udp>)
  {
    if c == None then since == []
    else if c.value.dirty then since == [] && tick == None
    else tick.Some? && at.Some? && since == [Carrying(at.value, k, c.value)]
  }

  ghost function TablesAt(cfg: Config, ops: seq<Op>, i: Option<nat>): Option<Udp.Udp>
    requires i.Some? ==> i.value <= |ops|
  {
    if i == None then None else Some(After(cfg, ops[..i.value]).udp)
  }

  ghost predicate DeliveredAfter(cfg: Config, ops: seq<Op>, k: Vehicles.Key)
  {
    var tick := DeliveryTick(cfg, ops, k);
    Delivered(k, CellOf(After(cfg, ops).entries, k), SinceUpdate(cfg, ops, k), tick, TablesAt(cfg, ops, tick))
  }

  lemma StepDelivers(k: Vehicles.Key, c: Option<Vehicles.Cell>, since: seq<Udp.Datagram>, tick: Option<nat>,
                     at: Option<Udp.Udp>, o: Option<Trace.Op>, u: Udp.Udp, now: nat)
    requires Delivered(k, c, since, tick, at)
    ensures var touched := o.Some? && (Trace.Removes(o.value, k) || Trace.Reported(o.value, k) != []);
            var ticked := o == Some(Trace.Broadcast);
            var d := NextCell(c, o, k);
            var sent := if ticked && c.Some? && c.value.dirty then [Carrying(u, k, d.value)] else [];
            Delivered(k, d, if touched then [] else since + sent,
                      if touched then None else if ticked && tick == None then Some(now) else tick,
                      if touched then None else if ticked && tick == None then Some(u) else at)
  {
    assert since + [] == since;
  }

  lemma {:induction false} RunDelivers(cfg: Config, ops: seq<Op>, k: Vehicles.Key)
    requires Legal(cfg, ops)
    ensures DeliveredAfter(cfg, ops, k)
  {
    if ops == [] {
      assert CellOf([], k) == None;
    } else {
      var before, op := ops[..|ops| - 1], ops[|ops| - 1];
      RunDelivers(cfg, before, k);
      RunKeepsInv(cfg, before);
      OneMoreDelivered(cfg, ops, k);
    }
  }

  lemma OneMoreDelivered(cfg: Config, ops: seq<Op>, k: Vehicles.Key)
    requires ops != [] && Legal(cfg, ops) && Inv(cfg, After(cfg, ops[..|ops| - 1]))
    requires DeliveredAfter(cfg, ops[..|ops| - 1], k)
    ensures DeliveredAfter(cfg, ops, k)
  {
    var before, op := ops[..|ops| - 1], ops[|ops| - 1];
    var s, tick := After(cfg, before), DeliveryTick(cfg, before, k);
    TablesLater(cfg, ops, tick);
    var o := StepFacts(cfg, s, op, k);
    StepDelivers(k, CellOf(s.entries, k), SinceUpdate(cfg, before, k), tick, TablesAt(cfg, before, tick),
                 o, s.udp, |before|);
  }

  lemma TablesLater(cfg: Config, ops: seq<Op>, tick: Option<nat>)
    requires ops != [] && (tick.Some? ==> tick.value < |ops|)
    ensures TablesAt(cfg, ops[..|ops| - 1], tick) == TablesAt(cfg, ops, tick)
  {
    if tick.Some? { assert ops[..tick.value] == ops[..|ops| - 1][..tick.value]; }
  }

  /** What a step does for one vehicle, told by what it means for the vehicle table. */
  lemma StepFacts(cfg: Config, s: Tables, op: Op, k: Vehicles.Key) returns (o: Option<Trace.Op>)
    requires Inv(cfg, s) && Assumed(cfg, s, op)
    ensures CellOf(Step(cfg, s, op).entries, k) == NextCell(CellOf(s.entries, k), o, k)
    ensures op == SyncTick <==> o == Some(Trace.Broadcast)
    ensures Touches(cfg, s, op, k) <==> o.Some? && (Trace.Removes(o.value, k) || Trace.Reported(o.value, k) != [])
    ensures var c := CellOf(s.entries, k);
            SyncLog(Sends(s, op), k)
            == if op == SyncTick && c.Some? && c.value.dirty then [Carrying(s.udp, k, NextCell(c, o, k).value)] else []
  {
    o := SyncOp(cfg, s, op);
    StepMovesCell(cfg, s, op, k);
    StepLogs(s, op, k);
    TicksBroadcast(cfg, s, op);
  }

  lemma WhoGotIt(k: Vehicles.Key, c: Option<Vehicles.Cell>, since: seq<Udp.Datagram>, tick: Option<nat>,
                 at: Option<Udp.Udp>, q: u16)
    requires c.Some? && Delivered(k, c, since, tick, at)
    ensures |since| == (if tick.Some? then 1 else 0) && (tick.Some? ==> at.Some?)
    ensures (exists d :: d in since && d.Sync? && q in d.recipients)
            <==> tick.Some? && q != k.owner && q in at.value.toEp
    ensures forall d :: d in since ==>
              && d.Sync? && d.packet.exclude == k.owner && d.packet.update.sender == k.owner
              && d.packet.update.state == c.value.state
  {
    if since != [] { assert since[0] in since; }
  }

  /**
   Exactly who is sent the latest state of a vehicle, after any legal run: the
   players, other than its owner, who were mapped when the first tick after its
   latest update ran. They are sent it once, at the endpoints they had then.
   */
  lemma SentLatestIff(cfg: Config, ops: seq<Op>, k: Vehicles.Key, q: u16)
    requires Legal(cfg, ops) && Trace.UpdatesSince(SyncOps(cfg, ops), k) != []
    ensures WasSentLatest(cfg, ops, k, q)
            <==> var tick := DeliveryTick(cfg, ops, k);
                 tick.Some? && q != k.owner && q in After(cfg, ops[..tick.value]).udp.toEp
    ensures |SinceUpdate(cfg, ops, k)| == if DeliveryTick(cfg, ops, k).Some? then 1 else 0
    ensures forall d :: d in SinceUpdate(cfg, ops, k) ==>
              && d.Sync? && d.packet.exclude == k.owner && d.packet.update.sender == k.owner
              && d.packet.update.state == Trace.Last(Trace.UpdatesSince(SyncOps(cfg, ops), k))
  {
    RunDelivers(cfg, ops, k);
    UpdatedIsThere(cfg, ops, k);
    var tick := DeliveryTick(cfg, ops, k);
    WhoGotIt(k, CellOf(After(cfg, ops).entries, k), SinceUpdate(cfg, ops, k), tick, TablesAt(cfg, ops, tick), q);
  }

  /** The packets since the last update are the last of all packets about the vehicle. */
  lemma {:induction false} SinceIsTheEnd(cfg: Config, ops: seq<Op>, k: Vehicles.Key)
    requires Legal(cfg, ops)
    ensures Trace.Ends(SyncLog(After(cfg, ops).udp.sent, k), SinceUpdate(cfg, ops, k))
  {
    if ops != [] {
      var before, op := ops[..|ops| - 1], ops[|ops| - 1];
      var s := After(cfg, before);
      SinceIsTheEnd(cfg, before, k);
      RunKeepsInv(cfg, before);
      StepSends(cfg, s, op);
      LogMore(s.udp.sent, Sends(s, op), k);
      Trace.SuffixAppend(SyncLog(s.udp.sent, k), SinceUpdate(cfg, before, k), SyncLog(Sends(s, op), k));
    }
  }

  lemma LogMore(sent: seq<Udp.Datagram>, more: seq<Udp.Datagram>, k: Vehicles.Key)
    ensures SyncLog(sent + more, k) == SyncLog(sent, k) + SyncLog(more, k)
  {
    FilterAppend((d: Udp.Datagram) => d.Sync? && Vehicles.Concerns(d.packet, k), sent, more);
  }

  /** After a tick, the tick that delivers is there: an earlier one, or this one. */
  lemma TickDelivers(cfg: Config, ops: seq<Op>, k: Vehicles.Key)
    requires Legal(cfg, ops)
    ensures Legal(cfg, ops + [SyncTick]) && SyncOps(cfg, ops + [SyncTick]) == SyncOps(cfg, ops) + [Trace.Broadcast]
    ensures Trace.UpdatesSince(SyncOps(cfg, ops + [SyncTick]), k) == Trace.UpdatesSince(SyncOps(cfg, ops), k)
    ensures DeliveryTick(cfg, ops + [SyncTick], k)
            == if DeliveryTick(cfg, ops, k) == None then Some(|ops|) else DeliveryTick(cfg, ops, k)
  {
    OneMoreStep(cfg, ops, SyncTick);
    assert (ops + [SyncTick])[..|ops|] == ops;
    var all := SyncOps(cfg, ops) + [Trace.Broadcast];
    assert all[..|all| - 1] == SyncOps(cfg, ops);
    assert Trace.UpdatesSince(SyncOps(cfg, ops), k) + [] == Trace.UpdatesSince(SyncOps(cfg, ops), k);
  }

  /**
   The last packet about the vehicle decodes to its most recent update, and went to
   everyone, but the owner, who was mapped at the first tick after that update.
   */
  ghost predicate LatestDelivered(cfg: Config, ops: seq<Op>, k: Vehicles.Key)
  {
    var log, tick := SyncLog(After(cfg, ops).udp.sent, k), DeliveryTick(cfg, ops, k);
    var updates := Trace.UpdatesSince(SyncOps(cfg, ops), k);
    && log != [] && Trace.Last(log).Sync? && updates != [] && tick.Some?
    && var u, last := After(cfg, ops[..tick.value]).udp, Trace.Last(log);
       && ParseUpdate(Vehicles.Wire(last.packet)) == Some(last.packet.update)
       && last.packet.update.state == Trace.Last(updates)
       && last.recipients == map q | q in u.toEp && q != k.owner :: u.toEp[q]
  }

  /**
   Latest-state delivery through the whole server. After any legal run and a tick,
   the most recent update of every live vehicle is delivered: at this tick, if it
   is the first after the update. A second tick sends nothing.
   */
  lemma EndToEnd(cfg: Config, ops: seq<Op>, k: Vehicles.Key)
    requires Legal(cfg, ops) && Trace.UpdatesSince(SyncOps(cfg, ops), k) != []
    ensures k.owner in After(cfg, ops).players
    ensures LatestDelivered(cfg, ops + [SyncTick], k)
    ensures Trace.UpdatesSince(SyncOps(cfg, ops + [SyncTick]), k) == Trace.UpdatesSince(SyncOps(cfg, ops), k)
    ensures DeliveryTick(cfg, ops, k) == None ==> DeliveryTick(cfg, ops + [SyncTick], k) == Some(|ops|)
    ensures Tick(After(cfg, ops + [SyncTick])).udp == After(cfg, ops + [SyncTick]).udp
  {
    UpdatedIsThere(cfg, ops, k);
    TickDelivers(cfg, ops, k);
    LastPacket(cfg, ops + [SyncTick], k);
    SecondTickIsSilent(cfg, ops);
  }

  lemma SecondTickIsSilent(cfg: Config, ops: seq<Op>)
    ensures Tick(After(cfg, ops + [SyncTick])).udp == After(cfg, ops + [SyncTick]).udp
  {
    OneMoreStep(cfg, ops, SyncTick);
    Trace.NothingTwice(After(cfg, ops).entries);
  }

  /** Once delivered, the latest state is in the last packet about the vehicle. */
  lemma LastPacket(cfg: Config, ops: seq<Op>, k: Vehicles.Key)
    requires Legal(cfg, ops) && Trace.UpdatesSince(SyncOps(cfg, ops), k) != [] && DeliveryTick(cfg, ops, k).Some?
    ensures LatestDelivered(cfg, ops, k)
  {
    var tick := DeliveryTick(cfg, ops, k);
    var since, c := SinceUpdate(cfg, ops, k), CellOf(After(cfg, ops).entries, k);
    UpdatedIsThere(cfg, ops, k);
    RunDelivers(cfg, ops, k);
    OnlyPacket(k, c, since, tick, TablesAt(cfg, ops, tick));
    SinceIsTheEnd(cfg, ops, k);
    LastOfEnd(SyncLog(After(cfg, ops).udp.sent, k), since);
  }

  lemma OnlyPacket(k: Vehicles.Key, c: Option<Vehicles.Cell>, since: seq<Udp.Datagram>, tick: Option<nat>,
                   at: Option<Udp.Udp>)
    requires c.Some? && tick.Some? && Delivered(k, c, since, tick, at)
    ensures at.Some? && since == [Carrying(at.value, k, c.value)]
    ensures var m := Trace.Last(since).packet; ParseUpdate(Vehicles.Wire(m)) == Some(m.update)
  {
    Vehicles.WireDecodes(since[0].packet);
  }

  lemma LastOfEnd<T>(all: seq<T>, since: seq<T>)
    requires Trace.Ends(all, since) && since != []
    ensures all != [] && Trace.Last(all) == Trace.Last(since)
  {
  }

  // ---------- a player mapped too late ----------

  /** A step that is no update or removal of the vehicle leaves its updates as they were. */
  lemma UntouchedStep(cfg: Config, ops: seq<Op>, op: Op, k: Vehicles.Key)
    requires !Touches(cfg, After(cfg, ops), op, k)
    ensures Trace.UpdatesSince(SyncOps(cfg, ops + [op]), k) == Trace.UpdatesSince(SyncOps(cfg, ops), k)
    ensures DeliveryTick(cfg, ops, k).Some? ==> DeliveryTick(cfg, ops + [op], k) == DeliveryTick(cfg, ops, k)
  {
    assert (ops + [op])[..|ops|] == ops;
    var o, before := SyncOp(cfg, After(cfg, ops), op), SyncOps(cfg, ops);
    if o.Some? {
      assert (before + [o.value])[..|before|] == before;
      assert Trace.UpdatesSince(before, k) + [] == Trace.UpdatesSince(before, k);
    } else {
      assert before + [] == before;
    }
  }

  /** A vehicle update that is no AI traffic. */
  function Drives(from: Udp.Endpoint, state: VehicleState): Op
  {
    Datagram(from, VehicleData([], false, Some(state)), false)
  }

  /** An update of a mapped player's vehicle waits for the next tick. */
  lemma ReportedStep(cfg: Config, ops: seq<Op>, from: Udp.Endpoint, state: VehicleState)
    requires Udp.PlayerFromEndpoint(After(cfg, ops).udp, from) != NO_PLAYER
    ensures var all := ops + [Drives(from, state)];
            var k := Vehicles.Key(Udp.PlayerFromEndpoint(After(cfg, ops).udp, from), state.vehicleId);
            Trace.UpdatesSince(SyncOps(cfg, all), k) != [] && DeliveryTick(cfg, all, k) == None
  {
    var op := Drives(from, state);
    var o, before := SyncOp(cfg, After(cfg, ops), op), SyncOps(cfg, ops);
    assert (ops + [op])[..|ops|] == ops;
    assert (before + [o.value])[..|before|] == before;
  }

  /** The player was not mapped at the tick after the vehicle's latest update. */
  ghost predicate Missed(cfg: Config, ops: seq<Op>, k: Vehicles.Key, q: u16)
  {
    var tick := DeliveryTick(cfg, ops, k);
    && Trace.UpdatesSince(SyncOps(cfg, ops), k) != []
    && tick.Some? && q !in After(cfg, ops[..tick.value]).udp.toEp
  }

  lemma StillMissed(cfg: Config, ops: seq<Op>, op: Op, k: Vehicles.Key, q: u16)
    requires Missed(cfg, ops, k, q) && !Touches(cfg, After(cfg, ops), op, k)
    ensures Missed(cfg, ops + [op], k, q)
  {
    var tick := DeliveryTick(cfg, ops, k).value;
    UntouchedStep(cfg, ops, op, k);
    assert (ops + [op])[..tick] == ops[..tick];
  }

  /** No step of `more`, after `ops`, updates the vehicle or removes it. */
  ghost predicate Untouched(cfg: Config, ops: seq<Op>, more: seq<Op>, k: Vehicles.Key)
  {
    more == [] ||
    var front, last := more[..|more| - 1], more[|more| - 1];
    Untouched(cfg, ops, front, k) && !Touches(cfg, After(cfg, ops + front), last, k)
  }

  lemma {:induction false} MissedAlong(cfg: Config, ops: seq<Op>, more: seq<Op>, k: Vehicles.Key, q: u16)
    requires Missed(cfg, ops, k, q) && Untouched(cfg, ops, more, k)
    ensures Missed(cfg, ops + more, k, q)
  {
    if more == [] {
      assert ops + more == ops;
    } else {
      var front, last := more[..|more| - 1], more[|more| - 1];
      MissedAlong(cfg, ops, front, k, q);
      StillMissed(cfg, ops + front, last, k, q);
      LastApart(ops, more);
    }
  }

  lemma LastApart<T>(a: seq<T>, b: seq<T>)
    requires b != []
    ensures a + b == a + b[..|b| - 1] + [b[|b| - 1]]
  {
  }

  /**
   A parked vehicle stays unseen: whoever was not mapped at the tick after its
   latest update is not sent its state by any later steps, mappings and ticks
   among them, until it is updated again.
   */
  lemma ParkedStaysUnseen(cfg: Config, ops: seq<Op>, more: seq<Op>, k: Vehicles.Key, q: u16)
    requires Legal(cfg, ops + more) && Missed(cfg, ops, k, q) && Untouched(cfg, ops, more, k)
    ensures !WasSentLatest(cfg, ops + more, k, q)
  {
    MissedAlong(cfg, ops, more, k, q);
    SentLatestIff(cfg, ops + more, k, q);
  }

  /** A connection is accepted and logs in; its session and its player get the same number here. */
  function Enter(cfg: Config, n: u16): seq<Op>
  {
    [Accept] + [Login(cfg, n)]
  }

  ghost predicate Entered(s: Tables, n: u16, who: set<u16>)
  {
    && n < 0xFFFE && s.nextPlayer == s.tcp.nextSession == n + 1
    && s.players.Keys == who && s.sessionToPlayer.Keys == who && n + 1 !in who
    && s.udp == Udp.Udp(map[], map[], []) && s.entries == []
  }

  lemma LoginEntered(cfg: Config, s: Tables, n: u16, who: set<u16>)
    requires Entered(s, n, who) && n + 2 < 0xFFFE && n + 2 !in who && |who| < cfg.maxPlayers
    ensures var t := s.(tcp := Tcp.Accept(s.tcp));
            && Assumed(cfg, t, Login(cfg, n + 1))
            && Entered(Step(cfg, t, Login(cfg, n + 1)), n + 1, who + {n + 1})
  {
    assert |s.players| == |s.players.Keys|;
    LoginEnters(cfg, s.(tcp := Tcp.Accept(s.tcp)), n + 1);
  }

  lemma Enters(cfg: Config, ops: seq<Op>, n: u16, who: set<u16>)
    requires Legal(cfg, ops) && Entered(After(cfg, ops), n, who)
    requires n + 2 < 0xFFFE && n + 2 !in who && |who| < cfg.maxPlayers
    ensures Legal(cfg, ops + Enter(cfg, n + 1)) && Entered(After(cfg, ops + Enter(cfg, n + 1)), n + 1, who + {n + 1})
  {
    Associates(ops, [Accept], [Login(cfg, n + 1)]);
    OneMoreStep(cfg, ops, Accept);
    OneMoreStep(cfg, ops + [Accept], Login(cfg, n + 1));
    LoginEntered(cfg, After(cfg, ops), n, who);
  }

  lemma TwoEnter(cfg: Config)
    requires cfg.maxPlayers >= 2
    ensures var ops := Enter(cfg, 1) + Enter(cfg, 2); Legal(cfg, ops) && Entered(After(cfg, ops), 2, {1, 2})
  {
    assert [] + Enter(cfg, 1) == Enter(cfg, 1);
    assert {} + {1} == {1} && {1} + {2} == {1, 2};
    Enters(cfg, [], 0, {});
    Enters(cfg, Enter(cfg, 1), 1, {1});
  }

  /** Two players enter, the first is mapped, reports its vehicle and is heard by no one, as a tick runs. */
  function ParkedRun(cfg: Config, state: VehicleState, a: Udp.Endpoint): seq<Op>
  {
    Enter(cfg, 1) + Enter(cfg, 2) + [MapPlayer(1, a)]
    + [Drives(a, state)] + [SyncTick]
  }

  /** After such a run player 2 is mapped and another tick runs, and still it is not sent the vehicle's state. */
  lemma LateMappingMisses(cfg: Config, state: VehicleState, a: Udp.Endpoint, b: Udp.Endpoint)
    requires cfg.maxPlayers >= 2 && a != b
    ensures var k := Vehicles.Key(1, state.vehicleId);
            var all := ParkedRun(cfg, state, a) + [MapPlayer(2, b)] + [SyncTick];
            && Legal(cfg, all) && Trace.UpdatesSince(SyncOps(cfg, all), k) != []
            && 2 in After(cfg, all).udp.toEp && !WasSentLatest(cfg, all, k, 2)
  {
    var mapped, k := ParkedRun(cfg, state, a) + [MapPlayer(2, b)], Vehicles.Key(1, state.vehicleId);
    MappedLate(cfg, state, a, b);
    TickKeepsMaps(cfg, mapped);
    StillMissed(cfg, mapped, SyncTick, k, 2);
    SentLatestIff(cfg, mapped + [SyncTick], k, 2);
  }

  lemma MappedLate(cfg: Config, state: VehicleState, a: Udp.Endpoint, b: Udp.Endpoint)
    requires cfg.maxPlayers >= 2 && a != b
    ensures var mapped := ParkedRun(cfg, state, a) + [MapPlayer(2, b)];
            && Legal(cfg, mapped) && 2 in After(cfg, mapped).udp.toEp
            && Missed(cfg, mapped, Vehicles.Key(1, state.vehicleId), 2)
  {
    ParkedFacts(cfg, state, a);
    OneMoreStep(cfg, ParkedRun(cfg, state, a), MapPlayer(2, b));
    StillMissed(cfg, ParkedRun(cfg, state, a), MapPlayer(2, b), Vehicles.Key(1, state.vehicleId), 2);
  }

  lemma ParkedFacts(cfg: Config, state: VehicleState, a: Udp.Endpoint)
    requires cfg.maxPlayers >= 2
    ensures var ops, k := ParkedRun(cfg, state, a), Vehicles.Key(1, state.vehicleId);
            && Legal(cfg, ops) && Trace.UpdatesSince(SyncOps(cfg, ops), k) != []
            && OneMapped(After(cfg, ops), a)
            && var tick := DeliveryTick(cfg, ops, k);
               tick.Some? && After(cfg, ops[..tick.value]).udp.toEp == map[1 := a]
  {
    var reported := Enter(cfg, 1) + Enter(cfg, 2) + [MapPlayer(1, a)] + [Drives(a, state)];
    ReportedFacts(cfg, state, a);
    TickDelivers(cfg, reported, Vehicles.Key(1, state.vehicleId));
    TickKeepsMaps(cfg, reported);
    assert (reported + [SyncTick])[..|reported|] == reported;
  }

  ghost predicate OneMapped(s: Tables, a: Udp.Endpoint)
  {
    s.players.Keys == {1, 2} && s.udp.toEp == map[1 := a] && s.udp.toPlayer == map[a := 1]
  }

  lemma ReportedFacts(cfg: Config, state: VehicleState, a: Udp.Endpoint)
    requires cfg.maxPlayers >= 2
    ensures var mapped := Enter(cfg, 1) + Enter(cfg, 2) + [MapPlayer(1, a)];
            var ops, k := mapped + [Drives(a, state)], Vehicles.Key(1, state.vehicleId);
            && Legal(cfg, ops) && OneMapped(After(cfg, ops), a)
            && Trace.UpdatesSince(SyncOps(cfg, ops), k) != [] && DeliveryTick(cfg, ops, k) == None
  {
    var mapped := Enter(cfg, 1) + Enter(cfg, 2) + [MapPlayer(1, a)];
    MappedFacts(cfg, a);
    ReportedStep(cfg, mapped, a, state);
    OneMoreStep(cfg, mapped, Drives(a, state));
  }

  lemma MappedFacts(cfg: Config, a: Udp.Endpoint)
    requires cfg.maxPlayers >= 2
    ensures var mapped := Enter(cfg, 1) + Enter(cfg, 2) + [MapPlayer(1, a)];
            Legal(cfg, mapped) && OneMapped(After(cfg, mapped), a)
  {
    TwoEnter(cfg);
    OneMoreStep(cfg, Enter(cfg, 1) + Enter(cfg, 2), MapPlayer(1, a));
  }

  lemma TickKeepsMaps(cfg: Config, ops: seq<Op>)
    ensures var s, t := After(cfg, ops), After(cfg, ops + [SyncTick]);
            t.players == s.players && t.udp.toEp == s.udp.toEp && t.udp.toPlayer == s.udp.toPlayer
    ensures Legal(cfg, ops + [SyncTick]) <==> Legal(cfg, ops)
  {
    OneMoreStep(cfg, ops, SyncTick);
    SendSyncKeepsMaps(After(cfg, ops).udp, Vehicles.Emissions(After(cfg, ops).entries));
  }
}
