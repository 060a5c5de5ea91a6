/**
 The server's table of vehicle states: a vector with one entry per owner and
 vehicle, which an update overwrites and a broadcast sends out when dirty.
 */
module VehicleSync {
  import opened Bytes
  import opened Packet

  datatype Entry = Entry(owner: u16, state: VehicleState, sequence: u32, dirty: bool)

  datatype Key = Key(owner: u16, vehicleId: byte)

  function KeyOf(e: Entry): Key
  {
    Key(e.owner, e.state.vehicleId)
  }

  /** One call of the broadcast function: the update it packs and the player left out. */
  datatype Emission = Emission(update: Update, exclude: u16)

  /** The bytes of the packet. */
  function Wire(m: Emission): seq<byte>
  {
    VehicleUpdate(m.update.sender, m.update.sequence, m.update.state)
  }

  /** Whoever receives the packet reads the update that was packed. */
  lemma WireDecodes(m: Emission)
    ensures ParseUpdate(Wire(m)) == Some(m.update)
  {
    VehicleUpdateRoundTrip(m.update.sender, m.update.sequence, m.update.state);
  }

  const ZERO_STATE := VehicleState(0, 0, Vec3(0, 0, 0), Quat(0, 0, 0, 0), Vec3(0, 0, 0), Vec3(0, 0, 0),
                                   Wheels(0, 0, 0, 0), 0, 0, 0, 0)

  // ---------- the vector ----------

  /** The position of the first entry for `k`, or the size of the vector. */
  function Find(es: seq<Entry>, k: Key): (i: nat)
    ensures i <= |es|
    ensures i < |es| ==> KeyOf(es[i]) == k
    ensures forall j :: 0 <= j < i ==> KeyOf(es[j]) != k
  {
    if es == [] || KeyOf(es[0]) == k then 0 else 1 + Find(es[1..], k)
  }

  function Updated(es: seq<Entry>, owner: u16, state: VehicleState): seq<Entry>
  {
    var i := Find(es, Key(owner, state.vehicleId));
    if i < |es| then es[i := es[i].(state := state, dirty := true)]
    else es + [Entry(owner, state, 0, true)]
  }

  function NextSeq(n: u32): u32
  {
    (n + 1) % 0x1_0000_0000
  }

  function Sent(e: Entry): Entry
  {
    if e.dirty then e.(sequence := NextSeq(e.sequence), dirty := false) else e
  }

  function AllSent(es: seq<Entry>): (r: seq<Entry>)
    ensures |r| == |es|
    ensures forall i :: 0 <= i < |es| ==> r[i] == Sent(es[i])
  {
    if es == [] then [] else [Sent(es[0])] + AllSent(es[1..])
  }

  function Emit(e: Entry): seq<Emission>
  {
    if e.dirty then [Emission(Update(e.owner, NextSeq(e.sequence), e.state), e.owner)] else []
  }

  /** What a broadcast sends, in the order of the vector. */
  function Emissions(es: seq<Entry>): seq<Emission>
  {
    if es == [] then [] else Emit(es[0]) + Emissions(es[1..])
  }

  lemma EmissionsFrom(es: seq<Entry>, i: nat)
    requires i < |es|
    ensures Emissions(es[i..]) == Emit(es[i]) + Emissions(es[i + 1..])
  {
    assert es[i..][1..] == es[i + 1..];
  }

  function WithoutOwner(es: seq<Entry>, owner: u16): seq<Entry>
  {
    Filter((e: Entry) => e.owner != owner, es)
  }

  function WithoutKey(es: seq<Entry>, k: Key): seq<Entry>
  {
    Filter(e => KeyOf(e) != k, es)
  }

  // ---------- the map it stands for ----------

  datatype Cell = Cell(state: VehicleState, sequence: u32, dirty: bool)

  ghost predicate Distinct(es: seq<Entry>)
  {
    forall i, j :: 0 <= i < j < |es| ==> KeyOf(es[i]) != KeyOf(es[j])
  }

  function Table(es: seq<Entry>): map<Key, Cell>
  {
    if es == [] then map[]
    else Table(es[1..])[KeyOf(es[0]) := Cell(es[0].state, es[0].sequence, es[0].dirty)]
  }

  /** Every key of the table names a state with that vehicle id. */
  lemma {:induction false} TableAt(es: seq<Entry>, k: Key)
    ensures k in Table(es) <==> Find(es, k) < |es|
    ensures k in Table(es) ==>
      var e := es[Find(es, k)]; Table(es)[k] == Cell(e.state, e.sequence, e.dirty)
  {
    if es != [] && KeyOf(es[0]) != k { TableAt(es[1..], k); }
  }

  /** An update is one assignment in the map; the key is never changed by the new state. */
  lemma UpdateRefines(es: seq<Entry>, owner: u16, state: VehicleState)
    requires Distinct(es)
    ensures Distinct(Updated(es, owner, state))
    ensures var k := Key(owner, state.vehicleId);
            Table(Updated(es, owner, state))
            == Table(es)[k := Cell(state, if k in Table(es) then Table(es)[k].sequence else 0, true)]
  {
    var k := Key(owner, state.vehicleId);
    var us := Updated(es, owner, state);
    var expected := Table(es)[k := Cell(state, if k in Table(es) then Table(es)[k].sequence else 0, true)];
    var i := Find(es, k);
    TableAt(es, k);
    UpdateMovesNone(es, owner, state);
    assert KeyOf(us[i]) == k && us[i] == Entry(owner, state, if i < |es| then es[i].sequence else 0, true);
    forall q ensures (q in Table(us) <==> q in expected) && (q in expected ==> Table(us)[q] == expected[q]) {
      TableAt(es, q);
      TableAt(us, q);
      FindAfter(es, us, q);
    }
  }

  /** An update keeps every entry in its place and puts a new one at the end. */
  lemma UpdateMovesNone(es: seq<Entry>, owner: u16, state: VehicleState)
    ensures var us, n := Updated(es, owner, state), Find(es, Key(owner, state.vehicleId));
            && |us| == (if n < |es| then |es| else |es| + 1)
            && KeyOf(us[n]) == Key(owner, state.vehicleId)
            && forall j :: 0 <= j < |es| && j != n ==> us[j] == es[j]
  {
  }

  /** Appending or overwriting in place moves no other key. */
  lemma FindAfter(es: seq<Entry>, us: seq<Entry>, q: Key)
    requires |es| <= |us| <= |es| + 1
    requires forall j :: 0 <= j < |es| ==> KeyOf(us[j]) == KeyOf(es[j])
    ensures Find(es, q) < |es| ==> Find(us, q) == Find(es, q)
    ensures Find(es, q) == |es| ==> Find(us, q) >= |es|
  {
  }

  /** A broadcast clears every dirty mark and numbers what it sent; no key comes or goes. */
  lemma BroadcastRefines(es: seq<Entry>)
    requires Distinct(es)
    ensures Distinct(AllSent(es))
    ensures Table(AllSent(es)) == map k | k in Table(es) ::
              var c := Table(es)[k]; Cell(c.state, if c.dirty then NextSeq(c.sequence) else c.sequence, false)
  {
    var us := AllSent(es);
    assert forall j :: 0 <= j < |es| ==> KeyOf(us[j]) == KeyOf(es[j]);
    forall q ensures q in Table(us) <==> q in Table(es) {
      TableAt(es, q);
      TableAt(us, q);
      FindAfter(es, us, q);
    }
    forall q | q in Table(us)
      ensures var c := Table(es)[q];
              Table(us)[q] == Cell(c.state, if c.dirty then NextSeq(c.sequence) else c.sequence, false)
    {
      TableAt(es, q);
      TableAt(us, q);
      FindAfter(es, us, q);
    }
  }

  /** Erasing entries removes their keys from the map and nothing else. */
  lemma {:induction false} FilterRefines(p: Entry -> bool, es: seq<Entry>)
    requires Distinct(es)
    ensures Distinct(Filter(p, es))
    ensures forall k :: k in Table(Filter(p, es)) <==> k in Table(es) && Find(es, k) < |es| && p(es[Find(es, k)])
    ensures forall k :: k in Table(Filter(p, es)) ==> k in Table(es) && Table(Filter(p, es))[k] == Table(es)[k]
  {
    if es != [] {
      var tail := es[1..];
      DistinctTail(es);
      FilterRefines(p, tail);
      FilterMembers(p, tail);
      DistinctCons(es[0], Filter(p, tail));
      forall k ensures k in Table(es) <==> Find(es, k) < |es| { TableAt(es, k); }
      var fs := Filter(p, es);
      assert p(es[0]) ==> fs[0] == es[0] && fs[1..] == Filter(p, tail);
      assert !p(es[0]) ==> fs == Filter(p, tail);
    }
  }

  lemma DisconnectRefines(es: seq<Entry>, owner: u16)
    requires Distinct(es)
    ensures Distinct(WithoutOwner(es, owner))
    ensures Table(WithoutOwner(es, owner)) == map k | k in Table(es) && k.owner != owner :: Table(es)[k]
  {
    FilterRefines((e: Entry) => e.owner != owner, es);
    forall k ensures k in Table(es) <==> Find(es, k) < |es| { TableAt(es, k); }
  }

  lemma DeleteRefines(es: seq<Entry>, k: Key)
    requires Distinct(es)
    ensures Distinct(WithoutKey(es, k))
    ensures Table(WithoutKey(es, k)) == Table(es) - {k}
  {
    FilterRefines(e => KeyOf(e) != k, es);
    forall q ensures q in Table(es) <==> Find(es, q) < |es| { TableAt(es, q); }
  }

  lemma DistinctTail(es: seq<Entry>)
    requires es != [] && Distinct(es)
    ensures Distinct(es[1..])
    ensures forall e :: e in es[1..] ==> KeyOf(e) != KeyOf(es[0])
    ensures KeyOf(es[0]) !in Table(es[1..])
  {
    forall i, j | 0 <= i < j < |es| - 1 ensures KeyOf(es[1..][i]) != KeyOf(es[1..][j]) {
      assert KeyOf(es[i + 1]) != KeyOf(es[j + 1]);
    }
    forall e | e in es[1..] ensures KeyOf(e) != KeyOf(es[0]) {
      var i :| 0 <= i < |es| - 1 && es[1..][i] == e;
      assert KeyOf(es[0]) != KeyOf(es[i + 1]);
    }
    TableAt(es[1..], KeyOf(es[0]));
  }

  lemma DistinctCons(e: Entry, rest: seq<Entry>)
    requires Distinct(rest)
    ensures (forall r :: r in rest ==> KeyOf(r) != KeyOf(e)) ==> Distinct([e] + rest)
  {
  }

  /** What a broadcast sends for one key depends on the map alone: one packet if dirty, else none. */
  function ForKey(k: Key, c: Cell): seq<Emission>
  {
    if c.dirty then [Emission(Update(k.owner, NextSeq(c.sequence), c.state), k.owner)] else []
  }

  predicate Concerns(m: Emission, k: Key)
  {
    m.update.sender == k.owner && m.update.state.vehicleId == k.vehicleId
  }

  /** The packets of a list that are about `k`, in order. */
  function About(ms: seq<Emission>, k: Key): seq<Emission>
  {
    Filter(m => Concerns(m, k), ms)
  }

  lemma EmitConcerns(e: Entry, k: Key)
    ensures About(Emit(e), k) == if KeyOf(e) == k then Emit(e) else []
  {
    if e.dirty {
      var m := Emission(Update(e.owner, NextSeq(e.sequence), e.state), e.owner);
      FilterOne(x => Concerns(x, k), m);
    }
  }

  lemma {:induction false} EmissionsAbout(es: seq<Entry>, k: Key)
    requires Distinct(es)
    ensures About(Emissions(es), k) == if k in Table(es) then ForKey(k, Table(es)[k]) else []
  {
    if es != [] {
      DistinctTail(es);
      EmissionsAbout(es[1..], k);
      FilterAppend(m => Concerns(m, k), Emit(es[0]), Emissions(es[1..]));
      EmitConcerns(es[0], k);
    }
  }

  // ---------- the class ----------

  class VehicleSync {
    var entries: seq<Entry>

    constructor ()
      ensures entries == []
    {
      entries := [];
    }

    method FindOrCreate(owner: u16, vehicleId: byte) returns (i: nat)
      modifies this
      ensures i == Find(old(entries), Key(owner, vehicleId))
      ensures entries == if i < |old(entries)| then old(entries)
                         else old(entries) + [Entry(owner, ZERO_STATE.(vehicleId := vehicleId), 0, false)]
    {
      i := 0;
      while i < |entries|
        invariant i <= Find(entries, Key(owner, vehicleId))
      {
        if entries[i].owner == owner && entries[i].state.vehicleId == vehicleId { return; }
        i := i + 1;
      }
      entries := entries + [Entry(owner, ZERO_STATE.(vehicleId := vehicleId), 0, false)];
    }

    method OnVehicleUpdate(playerId: u16, state: VehicleState)
      modifies this
      ensures entries == Updated(old(entries), playerId, state)
    {
      var i := FindOrCreate(playerId, state.vehicleId);
      entries := entries[i := entries[i].(state := state, dirty := true)];
    }

    /** The calls of the broadcast function, in order. */
    method BroadcastAll() returns (sent: seq<Emission>)
      modifies this
      ensures sent == Emissions(old(entries))
      ensures entries == AllSent(old(entries))
    {
      sent := [];
      ghost var start := entries;
      for i := 0 to |entries|
        invariant |entries| == |start|
        invariant forall j :: 0 <= j < i ==> entries[j] == Sent(start[j])
        invariant forall j :: i <= j < |start| ==> entries[j] == start[j]
        invariant sent + Emissions(start[i..]) == Emissions(start)
      {
        EmissionsFrom(start, i);
        if entries[i].dirty {
          var n := NextSeq(entries[i].sequence);
          Associates(sent, Emit(start[i]), Emissions(start[i + 1..]));
          sent := sent + [Emission(Update(entries[i].owner, n, entries[i].state), entries[i].owner)];
          entries := entries[i := entries[i].(sequence := n, dirty := false)];
        }
      }
    }

    method OnPlayerDisconnect(playerId: u16)
      modifies this
      ensures entries == WithoutOwner(old(entries), playerId)
    {
      entries := Keep((e: Entry) => e.owner != playerId, entries);
    }

    method OnVehicleDelete(playerId: u16, vehicleId: byte)
      modifies this
      ensures entries == WithoutKey(old(entries), Key(playerId, vehicleId))
    {
      var k := Key(playerId, vehicleId);
      entries := Keep(e => KeyOf(e) != k, entries);
    }
  }
}
