/**
 The client that drives AI traffic: it gives each traffic vehicle of the scene
 one of the server ids 200 to 254 and sends the vehicle's state under that id.
 */
module AiAuthority {
  import opened Bytes

  const MIN_ID: nat := 200
  const MAX_ID: nat := 254

  /** What the scene lists: vehicles by their game id, a natural number, with gaps. */
  type Scene = seq<Option<nat>>

  /** One state sent: the vehicle and the id it goes under. */
  datatype Sending = Sending(vehicle: nat, id: nat)

  datatype Traffic = Traffic(
    active: bool, timer: real, interval: real, ids: map<nat, nat>, players: set<nat>, sent: seq<Sending>)

  // ---------- allocation ----------

  function LeastFree(used: set<nat>, from: nat): (r: Option<nat>)
    ensures r.Some? ==> from <= r.value <= MAX_ID && r.value !in used
    ensures r.Some? ==> forall v :: from <= v < r.value ==> v in used
    ensures r.None? ==> forall v :: from <= v <= MAX_ID ==> v in used
    decreases MAX_ID + 1 - from
  {
    if from > MAX_ID then None else if from !in used then Some(from) else LeastFree(used, from + 1)
  }

  function IdFor(ids: map<nat, nat>, vehicle: nat): Option<nat>
  {
    if vehicle in ids then Some(ids[vehicle]) else LeastFree(ids.Values, MIN_ID)
  }

  function Allocate(ids: map<nat, nat>, vehicle: nat): map<nat, nat>
  {
    match IdFor(ids, vehicle)
    case None => ids
    case Some(id) => ids[vehicle := id]
  }

  // ---------- one sending tick ----------

  function Assign(ids: map<nat, nat>, scene: Scene, players: set<nat>): map<nat, nat>
    decreases |scene|
  {
    if scene == [] then ids
    else Assign(if scene[0] == None || scene[0].value in players then ids else Allocate(ids, scene[0].value),
                scene[1..], players)
  }

  function Sendings(ids: map<nat, nat>, scene: Scene, players: set<nat>): seq<Sending>
    decreases |scene|
  {
    if scene == [] then []
    else if scene[0] == None || scene[0].value in players then Sendings(ids, scene[1..], players)
    else
      (match IdFor(ids, scene[0].value)
       case None => []
       case Some(id) => [Sending(scene[0].value, id)])
      + Sendings(Allocate(ids, scene[0].value), scene[1..], players)
  }

  function CleanUp(ids: map<nat, nat>, scene: Scene): map<nat, nat>
  {
    map v | v in ids && Some(v) in scene :: ids[v]
  }

  function Tick(ids: map<nat, nat>, scene: Scene, players: set<nat>): map<nat, nat>
  {
    CleanUp(Assign(ids, scene, players), scene)
  }

  // ---------- the module's functions ----------

  datatype Op =
    | Activate(hz: real)
    | Deactivate
    | Update(scene: Scene, dt: real)
    | AddPlayer(vehicle: nat)
    | RemovePlayer(vehicle: nat)

  function Interval(hz: real): real
  {
    1.0 / if hz > 1.0 then hz else 1.0
  }

  function Apply(s: Traffic, op: Op): Traffic
  {
    match op
    case Activate(hz) =>
      if s.active then s else s.(active := true, timer := 0.0, interval := Interval(hz), ids := map[])
    case Deactivate =>
      if !s.active then s else s.(active := false, ids := map[])
    case Update(scene, dt) =>
      if !s.active then s
      else if s.timer - dt > 0.0 then s.(timer := s.timer - dt)
      else s.(timer := s.interval, ids := Tick(s.ids, scene, s.players),
              sent := s.sent + Sendings(s.ids, scene, s.players))
    case AddPlayer(v) => s.(players := s.players + {v})
    case RemovePlayer(v) => s.(players := s.players - {v})
  }

  const INITIAL := Traffic(false, 0.0, 1.0 / 20.0, map[], {}, [])

  function Run(ops: seq<Op>): Traffic
  {
    if ops == [] then INITIAL else Apply(Run(ops[..|ops| - 1]), ops[|ops| - 1])
  }

  class Authority {
    var active: bool
    var timer: real
    var interval: real
    var ids: map<nat, nat>
    var players: set<nat>
    var sent: seq<Sending>

    constructor ()
      ensures State() == INITIAL
    {
      active, timer, interval, ids, players, sent := false, 0.0, 1.0 / 20.0, map[], {}, [];
    }

    function State(): Traffic
      reads this
    {
      Traffic(active, timer, interval, ids, players, sent)
    }

    method AllocSVID(vehicle: nat) returns (id: Option<nat>)
      modifies this`ids
      ensures id == IdFor(old(ids), vehicle)
      ensures ids == Allocate(old(ids), vehicle)
    {
      if vehicle in ids {
        assert ids == ids[vehicle := ids[vehicle]];
        return Some(ids[vehicle]);
      }
      var used: set<nat> := {};
      var todo := ids.Keys;
      while todo != {}
        invariant todo <= ids.Keys
        invariant used == set v | v in ids && v !in todo :: ids[v]
        decreases todo
      {
        var v :| v in todo;
        todo := todo - {v};
        used := used + {ids[v]};
      }
      assert used == ids.Values by {
        forall id | id in ids.Values ensures id in used {
          var v :| v in ids && ids[v] == id;
        }
      }
      for id' := MIN_ID to MAX_ID + 1
        invariant LeastFree(used, MIN_ID) == LeastFree(used, id')
      {
        if id' !in used {
          ids := ids[vehicle := id'];
          return Some(id');
        }
      }
      return None;
    }

    method Start(hz: real)
      modifies this
      ensures State() == Apply(old(State()), Activate(hz))
    {
      if active { return; }
      active := true;
      interval := 1.0 / if hz > 1.0 then hz else 1.0;
      timer := 0.0;
      ids := map[];
    }

    method Stop()
      modifies this
      ensures State() == Apply(old(State()), Deactivate)
    {
      if !active { return; }
      active := false;
      ids := map[];
    }

    method OnUpdate(scene: Scene, dt: real)
      modifies this
      ensures State() == Apply(old(State()), Update(scene, dt))
    {
      if !active { return; }
      timer := timer - dt;
      if timer > 0.0 { return; }
      timer := interval;
      for i := 0 to |scene|
        invariant active && timer == interval && interval == old(interval) && players == old(players)
        invariant Assign(ids, scene[i..], players) == Assign(old(ids), scene, players)
        invariant sent + Sendings(ids, scene[i..], players) == old(sent) + Sendings(old(ids), scene, players)
      {
        assert scene[i..][0] == scene[i] && scene[i..][1..] == scene[i + 1..];
        if scene[i].Some? && scene[i].value !in players {
          var vehicle := scene[i].value;
          var id := AllocSVID(vehicle);
          if id.Some? { sent := sent + [Sending(vehicle, id.value)]; }
        }
      }
      RemoveStale(scene);
    }

    /** Drops the entries of vehicles that are no longer there, in no particular order. */
    method RemoveStale(scene: Scene)
      modifies this`ids
      ensures ids == CleanUp(old(ids), scene)
    {
      var todo := ids.Keys;
      while todo != {}
        invariant todo <= ids.Keys
        invariant ids == map v | v in old(ids) && (v in todo || Some(v) in scene) :: old(ids)[v]
        decreases todo
      {
        var v :| v in todo;
        todo := todo - {v};
        if Some(v) !in scene { ids := ids - {v}; }
      }
    }
  }

  // ---------- safety ----------

  /** Different vehicles have different ids, all between 200 and 254. */
  ghost predicate Sound(ids: map<nat, nat>)
  {
    && (forall v :: v in ids ==> MIN_ID <= ids[v] <= MAX_ID)
    && (forall v, w :: v in ids && w in ids && v != w ==> ids[v] != ids[w])
  }

  function IdRange(a: nat, b: nat): (s: set<nat>)
    requires a <= b
    ensures forall id :: id in s <==> a <= id < b
    ensures |s| == b - a
    decreases b - a
  {
    if a == b then {} else IdRange(a, b - 1) + {b - 1}
  }

  function AllIds(): (s: set<nat>)
    ensures forall id :: id in s <==> MIN_ID <= id <= MAX_ID
    ensures |s| == 55
  {
    IdRange(MIN_ID, MAX_ID + 1)
  }

  lemma SubsetSize<T>(a: set<T>, b: set<T>)
    requires a <= b
    ensures |a| <= |b| && (|a| == |b| ==> a == b)
  {
    assert b == a + (b - a);
    assert |b| == |a| + |b - a|;
    if |a| == |b| { assert b - a == {}; }
  }

  /** As many ids as vehicles, when no two share one. */
  lemma {:induction false} InjectiveSize(ids: map<nat, nat>)
    requires Sound(ids)
    ensures |ids.Values| == |ids|
    decreases |ids|
  {
    if ids.Keys == {} {
      assert ids == map[];
      assert ids.Values == {};
    } else {
      var v :| v in ids.Keys;
      var rest := ids - {v};
      assert rest.Keys == ids.Keys - {v};
      InjectiveSize(rest);
      assert ids.Values == rest.Values + {ids[v]} by {
        forall id | id in ids.Values ensures id in rest.Values + {ids[v]} {
          var w :| w in ids && ids[w] == id;
          if w != v { assert w in rest; }
        }
      }
      assert ids[v] !in rest.Values;
    }
  }

  /** At most 55 vehicles hold ids. */
  lemma AtMostFiftyFive(ids: map<nat, nat>)
    requires Sound(ids)
    ensures |ids| <= 55 && ids.Values <= AllIds()
  {
    InjectiveSize(ids);
    SubsetSize(ids.Values, AllIds());
  }

  /** Allocation fails exactly when 55 other vehicles hold all the ids. */
  lemma AllocationFailsIff(ids: map<nat, nat>, vehicle: nat)
    requires Sound(ids)
    ensures IdFor(ids, vehicle) == None <==> vehicle !in ids && |ids| == 55
  {
    AtMostFiftyFive(ids);
    InjectiveSize(ids);
    if vehicle !in ids {
      if IdFor(ids, vehicle) == None {
        assert AllIds() <= ids.Values;
        SubsetSize(AllIds(), ids.Values);
      } else if |ids| == 55 {
        SubsetSize(ids.Values, AllIds());
      }
    }
  }

  lemma AllocateKeepsSound(ids: map<nat, nat>, vehicle: nat)
    requires Sound(ids)
    ensures Sound(Allocate(ids, vehicle))
    ensures forall v :: v in ids ==> v in Allocate(ids, vehicle) && Allocate(ids, vehicle)[v] == ids[v]
  {
    if vehicle !in ids && IdFor(ids, vehicle).Some? {
      forall v | v in ids ensures ids[v] != IdFor(ids, vehicle).value { assert ids[v] in ids.Values; }
    }
  }

  lemma {:induction false} AssignKeepsSound(ids: map<nat, nat>, scene: Scene, players: set<nat>)
    requires Sound(ids)
    ensures Sound(Assign(ids, scene, players))
    ensures forall v :: v in ids ==> v in Assign(ids, scene, players) && Assign(ids, scene, players)[v] == ids[v]
    decreases |scene|
  {
    if scene != [] {
      if scene[0] == None || scene[0].value in players {
        AssignKeepsSound(ids, scene[1..], players);
      } else {
        AllocateKeepsSound(ids, scene[0].value);
        AssignKeepsSound(Allocate(ids, scene[0].value), scene[1..], players);
      }
    }
  }

  /** A tick keeps the ids sound, keeps the id of every vehicle in the scene, and forgets all others. */
  lemma TickKeepsSound(ids: map<nat, nat>, scene: Scene, players: set<nat>)
    requires Sound(ids)
    ensures var after := Tick(ids, scene, players);
            && Sound(after)
            && (forall v :: v in ids && Some(v) in scene ==> v in after && after[v] == ids[v])
            && (forall v :: v in after ==> Some(v) in scene)
  {
    AssignKeepsSound(ids, scene, players);
  }

  /** Over all runs the ids are sound, and held only while the client is the authority. */
  lemma {:induction false} RunKeepsSound(ops: seq<Op>)
    ensures Sound(Run(ops).ids) && |Run(ops).ids| <= 55
    ensures !Run(ops).active ==> Run(ops).ids == map[]
  {
    if ops != [] {
      var before := ops[..|ops| - 1];
      RunKeepsSound(before);
      if ops[|ops| - 1].Update? {
        TickKeepsSound(Run(before).ids, ops[|ops| - 1].scene, Run(before).players);
      }
    }
    AtMostFiftyFive(Run(ops).ids);
  }

  /** A vehicle that stays in the scene keeps its id until the authority is given up. */
  lemma {:induction false} IdIsKept(ops: seq<Op>, more: seq<Op>, vehicle: nat)
    requires vehicle in Run(ops).ids
    requires forall i :: 0 <= i < |more| ==> !more[i].Deactivate?
    requires forall i :: 0 <= i < |more| ==> more[i].Update? ==> Some(vehicle) in more[i].scene
    ensures vehicle in Run(ops + more).ids && Run(ops + more).ids[vehicle] == Run(ops).ids[vehicle]
  {
    if more == [] {
      assert ops + more == ops;
    } else {
      var front, last := more[..|more| - 1], more[|more| - 1];
      IdIsKept(ops, front, vehicle);
      assert (ops + more)[..|ops + more| - 1] == ops + front;
      RunKeepsSound(ops + front);
      if last.Update? {
        TickKeepsSound(Run(ops + front).ids, last.scene, Run(ops + front).players);
      }
    }
  }

  /** What a tick sends: every vehicle under the id it holds during the tick, no player's vehicle. */
  lemma {:induction false} SendingsMatch(ids: map<nat, nat>, scene: Scene, players: set<nat>)
    requires Sound(ids)
    ensures forall x :: x in Sendings(ids, scene, players) ==>
              && x.vehicle !in players && Some(x.vehicle) in scene
              && x.vehicle in Assign(ids, scene, players) && Assign(ids, scene, players)[x.vehicle] == x.id
    decreases |scene|
  {
    if scene != [] {
      if scene[0] == None || scene[0].value in players {
        SendingsMatch(ids, scene[1..], players);
      } else {
        var v := scene[0].value;
        AllocateKeepsSound(ids, v);
        SendingsMatch(Allocate(ids, v), scene[1..], players);
        AssignKeepsSound(Allocate(ids, v), scene[1..], players);
      }
    }
  }

  /** Within a tick no id is sent for two vehicles. */
  lemma SendingsAreDistinct(ids: map<nat, nat>, scene: Scene, players: set<nat>)
    requires Sound(ids)
    ensures var all := Sendings(ids, scene, players);
            forall x, y | x in all && y in all && x.vehicle != y.vehicle :: x.id != y.id
  {
    SendingsMatch(ids, scene, players);
    AssignKeepsSound(ids, scene, players);
  }

  // ---------- liveness ----------

  ghost function Vehicles(scene: Scene): set<nat>
  {
    set o | o in scene && o.Some? :: o.value
  }

  ghost predicate Served(ids: map<nat, nat>, scene: Scene, players: set<nat>)
  {
    forall v :: Some(v) in scene && v !in players ==> v in ids
  }

  /** The traffic vehicles of the scene. */
  ghost function Wanted(scene: Scene, players: set<nat>): set<nat>
  {
    Vehicles(scene) - players
  }

  /** If those who hold or want ids are in `all`, at most 55, a pass over the scene serves everyone. */
  lemma {:induction false} AssignServes(ids: map<nat, nat>, scene: Scene, players: set<nat>, all: set<nat>)
    requires Sound(ids) && ids.Keys <= all && |all| <= 55 && Wanted(scene, players) <= all
    ensures Served(Assign(ids, scene, players), scene, players)
    ensures Assign(ids, scene, players).Keys <= all
    decreases |scene|
  {
    if scene != [] {
      assert scene == [scene[0]] + scene[1..];
      if scene[0] == None || scene[0].value in players {
        AssignServes(ids, scene[1..], players, all);
      } else {
        var v := scene[0].value;
        assert v in Wanted(scene, players);
        PlaceLeft(ids, v, all);
        AllocateKeepsSound(ids, v);
        AssignServes(Allocate(ids, v), scene[1..], players, all);
        AssignKeepsSound(Allocate(ids, v), scene[1..], players);
      }
    }
  }

  lemma PlaceLeft(ids: map<nat, nat>, v: nat, all: set<nat>)
    requires Sound(ids) && ids.Keys <= all && |all| <= 55 && v in all
    ensures v in Allocate(ids, v) && Allocate(ids, v).Keys <= all
  {
    if v !in ids {
      SubsetSize(ids.Keys, all - {v});
      AllocationFailsIff(ids, v);
    }
  }

  /** Served and free of stale entries. */
  ghost predicate Settled(ids: map<nat, nat>, scene: Scene, players: set<nat>)
  {
    Served(ids, scene, players) && ids.Keys <= Vehicles(scene)
  }

  /** What is reached after `n` sendings: after one nothing stale is left, after two everyone is served. */
  ghost predicate Progress(t: Traffic, scene: Scene, n: nat)
  {
    (n >= 1 ==> t.ids.Keys <= Vehicles(scene)) && (n >= 2 ==> Settled(t.ids, scene, t.players))
  }

  lemma UpdateProgresses(t: Traffic, scene: Scene, dt: real, n: nat)
    requires t.active && Sound(t.ids) && |Vehicles(scene)| <= 55 && Progress(t, scene, n)
    ensures var u := Apply(t, Update(scene, dt));
            && u.active && u.players == t.players
            && Progress(u, scene, n + if t.timer - dt <= 0.0 then 1 else 0)
  {
    TickKeepsSound(t.ids, scene, t.players);
    if t.ids.Keys <= Vehicles(scene) { AssignServes(t.ids, scene, t.players, Vehicles(scene)); }
  }

  /** How many of the updates at the end of a run send. */
  ghost function SendingUpdates(ops: seq<Op>, more: seq<Op>): nat
  {
    if more == [] then 0
    else
      var front, last := more[..|more| - 1], more[|more| - 1];
      var t := Run(ops + front);
      SendingUpdates(ops, front) + if last.Update? && t.active && t.timer - last.dt <= 0.0 then 1 else 0
  }

  ghost predicate SameScene(more: seq<Op>, scene: Scene)
  {
    forall i :: 0 <= i < |more| ==> more[i].Update? && more[i].scene == scene
  }

  lemma RunNext(ops: seq<Op>, op: Op)
    ensures Run(ops + [op]) == Apply(Run(ops), op)
  {
    assert (ops + [op])[..|ops|] == ops;
  }

  lemma {:induction false} RunProgresses(ops: seq<Op>, more: seq<Op>, scene: Scene)
    requires Run(ops).active && SameScene(more, scene) && |Vehicles(scene)| <= 55
    ensures var t := Run(ops + more); t.active && Progress(t, scene, SendingUpdates(ops, more))
  {
    if more == [] {
      assert ops + more == ops;
    } else {
      var front, last := more[..|more| - 1], more[|more| - 1];
      RunProgresses(ops, front, scene);
      assert more == front + [last];
      Associates(ops, front, [last]);
      RunNext(ops + front, last);
      RunKeepsSound(ops + front);
      UpdateProgresses(Run(ops + front), scene, last.dt, SendingUpdates(ops, front));
    }
  }

  /**
   Bounded liveness: with at most 55 vehicles in an unchanging scene, any updates
   among which at least two send leave every traffic vehicle served and no stale
   entry, after any run that left the client the authority.
   */
  lemma TwoSendingsServe(ops: seq<Op>, more: seq<Op>, scene: Scene)
    requires Run(ops).active && SameScene(more, scene) && |Vehicles(scene)| <= 55
    requires SendingUpdates(ops, more) >= 2
    ensures var t := Run(ops + more);
            Served(t.ids, scene, t.players) && t.ids.Keys <= Vehicles(scene)
  {
    RunProgresses(ops, more, scene);
  }

  /** A pass over the scene cannot serve more than 55. */
  lemma AssignKeepsAll(ids: map<nat, nat>, scene: Scene, players: set<nat>)
    requires Sound(ids) && Served(Assign(ids, scene, players), scene, players)
    ensures |ids.Keys + Wanted(scene, players)| <= 55
  {
    var after := Assign(ids, scene, players);
    AssignKeepsSound(ids, scene, players);
    AtMostFiftyFive(after);
    assert ids.Keys + Wanted(scene, players) <= after.Keys;
    SubsetSize(ids.Keys + Wanted(scene, players), after.Keys);
  }

  /**
   Exactly when one sending update serves every traffic vehicle: those who hold an
   id, stale entries among them, and those who want one are at most 55.
   */
  lemma OneTickServesIff(ids: map<nat, nat>, scene: Scene, players: set<nat>)
    requires Sound(ids)
    ensures Served(Tick(ids, scene, players), scene, players) <==> |ids.Keys + Wanted(scene, players)| <= 55
  {
    var after := Assign(ids, scene, players);
    assert Served(Tick(ids, scene, players), scene, players) <==> Served(after, scene, players);
    if |ids.Keys + Wanted(scene, players)| <= 55 {
      AssignServes(ids, scene, players, ids.Keys + Wanted(scene, players));
    }
    if Served(after, scene, players) { AssignKeepsAll(ids, scene, players); }
  }

  /** The vehicles after `vehicle`, each with an id of its own from 200 on. */
  function StaleEntries(vehicle: nat, n: nat): (m: map<nat, nat>)
    ensures forall v :: v in m <==> vehicle < v <= vehicle + n
    ensures forall v :: v in m ==> m[v] == MIN_ID + v - vehicle - 1
  {
    if n == 0 then map[] else StaleEntries(vehicle, n - 1)[vehicle + n := MIN_ID + n - 1]
  }

  /** The scene that lists these vehicles. */
  function Crowd(vehicle: nat, n: nat): (scene: Scene)
    ensures |scene| == n
  {
    if n == 0 then [] else Crowd(vehicle, n - 1) + [Some(vehicle + n)]
  }

  lemma {:induction false} AssignAppend(ids: map<nat, nat>, a: Scene, b: Scene, players: set<nat>)
    ensures Assign(ids, a + b, players) == Assign(Assign(ids, a, players), b, players)
    decreases |a|
  {
    if a == [] {
      assert a + b == b;
    } else {
      assert (a + b)[1..] == a[1..] + b;
      var next := if a[0] == None || a[0].value in players then ids else Allocate(ids, a[0].value);
      AssignAppend(next, a[1..], b, players);
    }
  }

  lemma StaleIds(vehicle: nat, n: nat, id: nat)
    ensures id in StaleEntries(vehicle, n).Values <==> MIN_ID <= id < MIN_ID + n
  {
    var m := StaleEntries(vehicle, n);
    if MIN_ID <= id < MIN_ID + n {
      var v := vehicle + 1 + id - MIN_ID;
      assert v in m && m[v] == id;
    }
  }

  lemma NextStale(vehicle: nat, n: nat)
    requires n < 55
    ensures Allocate(StaleEntries(vehicle, n), vehicle + n + 1) == StaleEntries(vehicle, n + 1)
  {
    var used := StaleEntries(vehicle, n).Values;
    forall id: nat ensures id in used <==> MIN_ID <= id < MIN_ID + n { StaleIds(vehicle, n, id); }
    LeastAfter(used, MIN_ID, n);
  }

  lemma LeastAfter(used: set<nat>, from: nat, n: nat)
    requires from + n <= MAX_ID && forall id :: id in used <==> from <= id < from + n
    ensures LeastFree(used, from) == Some(from + n)
  {
    assert from + n !in used;
  }

  lemma {:induction false} CrowdIsServed(vehicle: nat, n: nat)
    requires n <= 55
    ensures Assign(map[], Crowd(vehicle, n), {}) == StaleEntries(vehicle, n)
  {
    if n > 0 {
      CrowdIsServed(vehicle, n - 1);
      AssignAppend(map[], Crowd(vehicle, n - 1), [Some(vehicle + n)], {});
      NextStale(vehicle, n - 1);
      var one: Scene := [Some(vehicle + n)];
      assert one[1..] == [];
    }
  }

  lemma {:induction false} CrowdLists(vehicle: nat, n: nat, v: nat)
    ensures Some(v) in Crowd(vehicle, n) <==> vehicle < v <= vehicle + n
  {
    if n > 0 { CrowdLists(vehicle, n - 1, v); }
  }

  lemma StaleCount(vehicle: nat, n: nat)
    ensures |StaleEntries(vehicle, n).Keys| == n
  {
    var all := IdRange(vehicle + 1, vehicle + n + 1);
    assert StaleEntries(vehicle, n).Keys == all;
  }

  /** The client becomes the authority and sends once, for 55 vehicles. */
  function CrowdedRun(vehicle: nat, hz: real): seq<Op>
  {
    [Activate(hz)] + [Update(Crowd(vehicle, 55), 0.0)]
  }

  lemma AfterCrowd(vehicle: nat, hz: real)
    ensures var t := Run(CrowdedRun(vehicle, hz));
            t.active && t.players == {} && t.timer == Interval(hz) && t.ids == StaleEntries(vehicle, 55)
  {
    var start: seq<Op> := [Activate(hz)];
    assert CrowdedRun(vehicle, hz)[..1] == start && start[..0] == [];
    assert Run(start) == INITIAL.(active := true, timer := 0.0, interval := Interval(hz), ids := map[]);
    CrowdIsServed(vehicle, 55);
    forall v ensures Some(v) in Crowd(vehicle, 55) <==> v in StaleEntries(vehicle, 55) { CrowdLists(vehicle, 55, v); }
    assert CleanUp(StaleEntries(vehicle, 55), Crowd(vehicle, 55)) == StaleEntries(vehicle, 55);
  }

  /** With all ids held by others the only vehicle of the scene gets none. */
  lemma CrowdedOut(ids: map<nat, nat>, vehicle: nat)
    requires Sound(ids) && |ids.Keys| == 55 && vehicle !in ids
    ensures !Served(Tick(ids, [Some(vehicle)], {}), [Some(vehicle)], {})
  {
    var scene: Scene := [Some(vehicle)];
    OneTickServesIff(ids, scene, {});
    assert Some(vehicle) in scene && Wanted(scene, {}) == {vehicle};
  }

  lemma OneSends(ops: seq<Op>, scene: Scene)
    requires Run(ops).active
    ensures SendingUpdates(ops, [Update(scene, Run(ops).timer)]) == 1
  {
    assert [Update(scene, Run(ops).timer)][..0] == [] && ops + [] == ops;
    assert SendingUpdates(ops, []) == 0;
  }

  /** One sending may not be enough: when the 55 are gone, their stale entries block the only vehicle there is. */
  lemma OneSendingMayNotServe(vehicle: nat, hz: real)
    ensures var t := Run(CrowdedRun(vehicle, hz));
            var u := Run(CrowdedRun(vehicle, hz) + [Update([Some(vehicle)], t.timer)]);
            t.active && SendingUpdates(CrowdedRun(vehicle, hz), [Update([Some(vehicle)], t.timer)]) == 1
            && !Served(u.ids, [Some(vehicle)], u.players)
  {
    hide Run, CrowdedRun, SendingUpdates, Tick, Served, Sound, Sendings;
    var ops, scene: Scene := CrowdedRun(vehicle, hz), [Some(vehicle)];
    AfterCrowd(vehicle, hz);
    RunKeepsSound(ops);
    StaleCount(vehicle, 55);
    CrowdedOut(Run(ops).ids, vehicle);
    OneSends(ops, scene);
    RunNext(ops, Update(scene, Run(ops).timer));
  }

  // ---------- what is sent, and when ----------

  /** How often a vehicle is listed. */
  function Listings(scene: Scene, v: nat): nat
    decreases |scene|
  {
    if scene == [] then 0 else (if scene[0] == Some(v) then 1 else 0) + Listings(scene[1..], v)
  }

  /** How often a vehicle is sent under an id. */
  function Copies(all: seq<Sending>, x: Sending): nat
  {
    if all == [] then 0 else (if all[0] == x then 1 else 0) + Copies(all[1..], x)
  }

  lemma {:induction false} CopiesAppend(a: seq<Sending>, b: seq<Sending>, x: Sending)
    ensures Copies(a + b, x) == Copies(a, x) + Copies(b, x)
  {
    if a == [] {
      assert a + b == b;
    } else {
      CopiesAppend(a[1..], b, x);
      assert (a + b)[1..] == a[1..] + b;
    }
  }

  /** Once no id is free, none becomes free during the tick. */
  lemma {:induction false} FullStaysFull(ids: map<nat, nat>, scene: Scene, players: set<nat>)
    requires LeastFree(ids.Values, MIN_ID) == None
    ensures Assign(ids, scene, players) == ids
    decreases |scene|
  {
    if scene != [] {
      if scene[0].Some? && scene[0].value in ids {
        assert ids[scene[0].value := ids[scene[0].value]] == ids;
      }
      FullStaysFull(ids, scene[1..], players);
    }
  }

  /**
   Everything that can be sent is sent: a tick sends each traffic vehicle that holds
   an id at its end of the pass once for every time the scene lists it, under that id.
   */
  lemma {:induction false} EveryHolderIsSent(ids: map<nat, nat>, scene: Scene, players: set<nat>, v: nat)
    requires Sound(ids) && v !in players && v in Assign(ids, scene, players)
    ensures Copies(Sendings(ids, scene, players), Sending(v, Assign(ids, scene, players)[v])) == Listings(scene, v)
    decreases |scene|
  {
    if scene != [] {
      var rest := scene[1..];
      if scene[0] == None || scene[0].value in players {
        EveryHolderIsSent(ids, rest, players, v);
      } else {
        var u := scene[0].value;
        AllocateKeepsSound(ids, u);
        EveryHolderIsSent(Allocate(ids, u), rest, players, v);
        FirstListed(ids, u, rest, players, v);
      }
    }
  }

  /** The first vehicle listed adds its own sending, if it gets an id, to those of the others. */
  lemma FirstListed(ids: map<nat, nat>, u: nat, rest: Scene, players: set<nat>, v: nat)
    requires Sound(ids) && v !in players && v in Assign(Allocate(ids, u), rest, players)
    ensures var own := match IdFor(ids, u) case None => [] case Some(id) => [Sending(u, id)];
            var others := Sendings(Allocate(ids, u), rest, players);
            var x := Sending(v, Assign(Allocate(ids, u), rest, players)[v]);
            Copies(own + others, x) == (if u == v then 1 else 0) + Copies(others, x)
  {
    var others := Sendings(Allocate(ids, u), rest, players);
    var x := Sending(v, Assign(Allocate(ids, u), rest, players)[v]);
    if IdFor(ids, u) == None {
      FullStaysFull(ids, rest, players);
      assert [] + others == others;
    } else {
      var own := Sending(u, IdFor(ids, u).value);
      AllocateKeepsSound(ids, u);
      AssignKeepsSound(Allocate(ids, u), rest, players);
      CopiesAppend([own], others, x);
      OneCopy(own, x);
    }
  }

  lemma OneCopy(y: Sending, x: Sending)
    ensures Copies([y], x) == if y == x then 1 else 0
  {
    assert [y][1..] == [];
  }

  /**
   From the second sending on everyone is sent: with at most 55 vehicles in a scene
   that stays as it is, after one sending, every update that sends again sends every
   traffic vehicle, as often as it is listed, under the id it then holds.
   */
  lemma EveryVehicleIsSent(ops: seq<Op>, more: seq<Op>, scene: Scene, dt: real, v: nat)
    requires Run(ops).active && SameScene(more, scene) && |Vehicles(scene)| <= 55
    requires SendingUpdates(ops, more) >= 1
    requires var t := Run(ops + more); t.timer <= dt && Some(v) in scene && v !in t.players
    ensures var t, u := Run(ops + more), Run(ops + more + [Update(scene, dt)]);
            && v in u.ids && |t.sent| <= |u.sent| && u.sent[..|t.sent|] == t.sent
            && Copies(u.sent[|t.sent|..], Sending(v, u.ids[v])) == Listings(scene, v) >= 1
  {
    var t := Run(ops + more);
    RunProgresses(ops, more, scene);
    RunNext(ops + more, Update(scene, dt));
    RunKeepsSound(ops + more);
    AssignServes(t.ids, scene, t.players, Vehicles(scene));
    EveryHolderIsSent(t.ids, scene, t.players, v);
    FrontOf(t.sent, Sendings(t.ids, scene, t.players));
    ListedAtLeastOnce(scene, v);
  }

  lemma {:induction false} ListedAtLeastOnce(scene: Scene, v: nat)
    requires Some(v) in scene
    ensures Listings(scene, v) >= 1
    decreases |scene|
  {
    if scene[0] != Some(v) {
      assert scene == [scene[0]] + scene[1..];
      ListedAtLeastOnce(scene[1..], v);
    }
  }

  /** The interval is the inverse of the rate, and one second for rates below 1. */
  lemma IntervalOfRate(hz: real)
    ensures hz >= 1.0 ==> Interval(hz) * hz == 1.0
    ensures hz < 1.0 ==> Interval(hz) == 1.0
  {
  }

  function Elapsed(more: seq<Op>): real
  {
    if more == [] then 0.0
    else Elapsed(more[..|more| - 1]) + if more[|more| - 1].Update? then more[|more| - 1].dt else 0.0
  }

  /** Updates and players coming and going, and none of the updates sends. */
  ghost predicate Silent(ops: seq<Op>, more: seq<Op>)
  {
    SendingUpdates(ops, more) == 0 && forall i :: 0 <= i < |more| ==> !more[i].Activate? && !more[i].Deactivate?
  }

  lemma {:induction false} TimerRuns(ops: seq<Op>, more: seq<Op>)
    requires Run(ops).active && Silent(ops, more)
    ensures var s, t := Run(ops), Run(ops + more);
            t.active && t.interval == s.interval && t.timer == s.timer - Elapsed(more)
  {
    if more == [] {
      assert ops + more == ops;
    } else {
      var front, last := more[..|more| - 1], more[|more| - 1];
      TimerRuns(ops, front);
      assert more == front + [last];
      Associates(ops, front, [last]);
      RunNext(ops + front, last);
      QuietStep(Run(ops + front), last);
    }
  }

  lemma QuietStep(t: Traffic, op: Op)
    requires t.active && !op.Activate? && !op.Deactivate? && (op.Update? ==> t.timer - op.dt > 0.0)
    ensures var u := Apply(t, op);
            && u.active && u.interval == t.interval
            && u.timer == t.timer - if op.Update? then op.dt else 0.0
  {
  }

  /**
   When a client sends: after steps none of which sent, an update sends exactly if the
   time since then has reached what was to be waited for, and then waits for the interval.
   */
  lemma SendsIffDue(ops: seq<Op>, more: seq<Op>, scene: Scene, dt: real)
    requires Run(ops).active && Silent(ops, more)
    ensures var t, u := Run(ops + more), Run(ops + more + [Update(scene, dt)]);
            if Elapsed(more) + dt >= Run(ops).timer then
              u.timer == Run(ops).interval && u.sent == t.sent + Sendings(t.ids, scene, t.players)
            else u == t.(timer := t.timer - dt)
  {
    TimerRuns(ops, more);
    RunNext(ops + more, Update(scene, dt));
  }

  /** After an activation nothing is to be waited for; after a sending, the interval. */
  lemma WaitsFor(ops: seq<Op>, hz: real, scene: Scene, dt: real)
    ensures !Run(ops).active ==>
              var t := Run(ops + [Activate(hz)]);
              t.active && t.timer == 0.0 && t.interval == Interval(hz) && t.ids == map[]
    ensures Run(ops).active && Run(ops).timer <= dt ==> Run(ops + [Update(scene, dt)]).timer == Run(ops).interval
    ensures Run(ops).active && Run(ops).timer > dt ==>
              Run(ops + [Update(scene, dt)]) == Run(ops).(timer := Run(ops).timer - dt)
    ensures !Run(ops).active ==> Run(ops + [Update(scene, dt)]) == Run(ops)
  {
    RunNext(ops, Activate(hz));
    RunNext(ops, Update(scene, dt));
  }

  /** Whose vehicles are left alone: those added last and not removed since. */
  function IsPlayers(ops: seq<Op>, v: nat): bool
  {
    if ops == [] then false
    else match ops[|ops| - 1]
      case AddPlayer(w) => w == v || IsPlayers(ops[..|ops| - 1], v)
      case RemovePlayer(w) => w != v && IsPlayers(ops[..|ops| - 1], v)
      case _ => IsPlayers(ops[..|ops| - 1], v)
  }

  lemma {:induction false} PlayersAreKnown(ops: seq<Op>, v: nat)
    ensures v in Run(ops).players <==> IsPlayers(ops, v)
  {
    if ops != [] { PlayersAreKnown(ops[..|ops| - 1], v); }
  }
}
