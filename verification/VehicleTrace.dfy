/**
 Whole runs of the vehicle table: which packets it sends for one vehicle between
 the vehicle's first update and its removal, and what they carry.
 */
module VehicleTrace {
  import opened Bytes
  import opened Packet
  import opened VehicleSync

  datatype Op =
    | Report(owner: u16, state: VehicleState)
    | Broadcast
    | Disconnect(owner: u16)
    | Delete(owner: u16, vehicleId: byte)

  function Apply(es: seq<Entry>, op: Op): seq<Entry>
  {
    match op
    case Report(owner, state) => Updated(es, owner, state)
    case Broadcast => AllSent(es)
    case Disconnect(owner) => WithoutOwner(es, owner)
    case Delete(owner, vehicleId) => WithoutKey(es, Key(owner, vehicleId))
  }

  function Output(es: seq<Entry>, op: Op): seq<Emission>
  {
    if op.Broadcast? then Emissions(es) else []
  }

  /** The vector after a run from the empty one. */
  function Entries(ops: seq<Op>): seq<Entry>
  {
    if ops == [] then [] else Apply(Entries(ops[..|ops| - 1]), ops[|ops| - 1])
  }

  /** Everything a run sent, in order. */
  function SentBy(ops: seq<Op>): seq<Emission>
  {
    if ops == [] then []
    else SentBy(ops[..|ops| - 1]) + Output(Entries(ops[..|ops| - 1]), ops[|ops| - 1])
  }

  predicate Removes(op: Op, k: Key)
  {
    op == Disconnect(k.owner) || op == Delete(k.owner, k.vehicleId)
  }

  /** The packets about `k` since it was last removed. */
  function SentSince(ops: seq<Op>, k: Key): seq<Emission>
  {
    if ops == [] || Removes(ops[|ops| - 1], k) then []
    else SentSince(ops[..|ops| - 1], k) + About(Output(Entries(ops[..|ops| - 1]), ops[|ops| - 1]), k)
  }

  /** The updates for `k` since it was last removed. */
  function UpdatesSince(ops: seq<Op>, k: Key): seq<VehicleState>
  {
    if ops == [] || Removes(ops[|ops| - 1], k) then []
    else UpdatesSince(ops[..|ops| - 1], k) + Reported(ops[|ops| - 1], k)
  }

  function Reported(op: Op, k: Key): seq<VehicleState>
  {
    if op.Report? && Key(op.owner, op.state.vehicleId) == k then [op.state] else []
  }

  function Last<T>(s: seq<T>): T
    requires s != []
  {
    s[|s| - 1]
  }

  // ---------- one key along a run ----------

  ghost predicate InStep(t: map<Key, Cell>, k: Key, sent: seq<Emission>, updates: seq<VehicleState>)
  {
    && (k in t <==> updates != [])
    && (k !in t ==> sent == [])
    && (k in t ==>
          var c := t[k];
          && c.state == Last(updates)
          && c.state.vehicleId == k.vehicleId
          && c.sequence == |sent| % 0x1_0000_0000
          && |sent| + (if c.dirty then 1 else 0) <= |updates|
          && (!c.dirty ==> sent != [] && Last(sent) == Packed(k, |sent|, c.state)))
  }

  /** The n-th packet for `k`, carrying `state`. */
  function Packed(k: Key, n: nat, state: VehicleState): Emission
  {
    Emission(Update(k.owner, n % 0x1_0000_0000, state), k.owner)
  }

  ghost predicate Numbered(k: Key, sent: seq<Emission>)
  {
    forall i :: 0 <= i < |sent| ==> exists s: VehicleState :: s.vehicleId == k.vehicleId && sent[i] == Packed(k, i + 1, s)
  }

  lemma {:induction false} RunKeepsStep(ops: seq<Op>, k: Key)
    ensures Distinct(Entries(ops))
    ensures InStep(Table(Entries(ops)), k, SentSince(ops, k), UpdatesSince(ops, k))
    ensures Numbered(k, SentSince(ops, k))
  {
    if ops != [] {
      var before, op := ops[..|ops| - 1], Last(ops);
      RunKeepsStep(before, k);
      StepKeepsStep(Entries(before), op, k, SentSince(before, k), UpdatesSince(before, k));
    }
  }

  lemma StepKeepsStep(es: seq<Entry>, op: Op, k: Key, sent: seq<Emission>, updates: seq<VehicleState>)
    requires Distinct(es) && InStep(Table(es), k, sent, updates) && Numbered(k, sent)
    ensures Distinct(Apply(es, op))
    ensures var sent' := if Removes(op, k) then [] else sent + About(Output(es, op), k);
            var updates' := if Removes(op, k) then [] else updates + Reported(op, k);
            InStep(Table(Apply(es, op)), k, sent', updates') && Numbered(k, sent')
  {
    assert About([], k) == [];
    assert sent + [] == sent && updates + [] == updates;
    if Removes(op, k) {
      RemovalEmpties(es, op, k);
      return;
    }
    match op
    case Report(owner, state) =>
      UpdateRefines(es, owner, state);
      ReportKeepsStep(Table(es), owner, state, k, sent, updates);
    case Broadcast =>
      BroadcastRefines(es);
      EmissionsAbout(es, k);
      BroadcastKeepsStep(Table(es), Table(AllSent(es)), k, sent, updates);
    case Disconnect(owner) =>
      DisconnectRefines(es, owner);
    case Delete(owner, vehicleId) =>
      DeleteRefines(es, Key(owner, vehicleId));
  }

  lemma RemovalEmpties(es: seq<Entry>, op: Op, k: Key)
    requires Distinct(es) && Removes(op, k)
    ensures Distinct(Apply(es, op)) && k !in Table(Apply(es, op))
  {
    match op
    case Disconnect(owner) => DisconnectRefines(es, owner);
    case Delete(owner, vehicleId) => DeleteRefines(es, k);
  }

  lemma ReportKeepsStep(t: map<Key, Cell>, owner: u16, state: VehicleState, k: Key,
                        sent: seq<Emission>, updates: seq<VehicleState>)
    requires InStep(t, k, sent, updates)
    ensures var q := Key(owner, state.vehicleId);
            InStep(t[q := Cell(state, if q in t then t[q].sequence else 0, true)], k, sent,
                   updates + Reported(Report(owner, state), k))
  {
    assert updates + [] == updates;
  }

  lemma BroadcastKeepsStep(t: map<Key, Cell>, u: map<Key, Cell>, k: Key,
                           sent: seq<Emission>, updates: seq<VehicleState>)
    requires InStep(t, k, sent, updates) && Numbered(k, sent)
    requires k in t <==> k in u
    requires k in t ==>
               u[k] == Cell(t[k].state, if t[k].dirty then NextSeq(t[k].sequence) else t[k].sequence, false)
    ensures var sent' := sent + if k in t then ForKey(k, t[k]) else [];
            InStep(u, k, sent', updates) && Numbered(k, sent')
  {
    assert sent + [] == sent;
    if k in t && t[k].dirty {
      NumberedNext(k, sent, t[k]);
    }
  }

  lemma NumberedNext(k: Key, sent: seq<Emission>, c: Cell)
    requires Numbered(k, sent) && c.dirty && c.state.vehicleId == k.vehicleId
    requires c.sequence == |sent| % 0x1_0000_0000
    ensures ForKey(k, c) == [Packed(k, |sent| + 1, c.state)]
    ensures Numbered(k, sent + ForKey(k, c))
  {
    var more := sent + [Packed(k, |sent| + 1, c.state)];
    forall i | 0 <= i < |more|
      ensures exists s: VehicleState :: s.vehicleId == k.vehicleId && more[i] == Packed(k, i + 1, s)
    {
      if i < |sent| {
        assert more[i] == sent[i];
      } else {
        assert more[i] == Packed(k, i + 1, c.state);
      }
    }
  }

  // ---------- the theorems ----------

  /** Keys stay pairwise distinct, and a key is in the table exactly when it was updated since its last removal. */
  lemma KeysStayDistinct(ops: seq<Op>)
    ensures Distinct(Entries(ops))
    ensures forall k :: k in Table(Entries(ops)) <==> UpdatesSince(ops, k) != []
  {
    RunKeepsStep(ops, Key(0, 0));
    forall k ensures k in Table(Entries(ops)) <==> UpdatesSince(ops, k) != [] {
      RunKeepsStep(ops, k);
    }
  }

  /**
   Between its creation and its removal a vehicle's packets carry the sequence
   numbers 1, 2, 3 and so on, modulo 2^32, are addressed to everyone but the
   owner, and never outnumber the updates received for it.
   */
  lemma SequenceNumbers(ops: seq<Op>, k: Key)
    ensures |SentSince(ops, k)| <= |UpdatesSince(ops, k)|
    ensures forall i :: 0 <= i < |SentSince(ops, k)| ==>
              var m := SentSince(ops, k)[i];
              && m.exclude == k.owner && Concerns(m, k)
              && m.update.sequence == (i + 1) % 0x1_0000_0000
  {
    RunKeepsStep(ops, k);
  }

  /**
   Latest-state delivery: after any run and a broadcast, the last packet sent for
   every vehicle in the table carries the most recent update for it, and a second
   broadcast without an update in between sends nothing.
   */
  lemma LatestStateDelivered(ops: seq<Op>, k: Key)
    requires UpdatesSince(ops, k) != []
    ensures var sent := About(SentBy(ops + [Broadcast]), k);
            sent != [] && Last(sent).exclude == k.owner
            && ParseUpdate(Wire(Last(sent))) == Some(Last(sent).update)
            && Last(sent).update.state == Last(UpdatesSince(ops, k))
    ensures Output(Entries(ops + [Broadcast]), Broadcast) == []
  {
    var run := ops + [Broadcast];
    assert run[..|run| - 1] == ops;
    RunKeepsStep(ops, k);
    RunKeepsStep(run, k);
    assert UpdatesSince(run, k) == UpdatesSince(ops, k);
    BroadcastRefines(Entries(ops));
    var sent, c := SentSince(run, k), Table(Entries(run))[k];
    SinceIsSuffix(run, k);
    WireDecodes(Packed(k, |sent|, c.state));
    NothingTwice(Entries(ops));
  }

  lemma {:induction false} NothingTwice(es: seq<Entry>)
    ensures Emissions(AllSent(es)) == []
  {
    if es != [] {
      NothingTwice(es[1..]);
      assert AllSent(es)[1..] == AllSent(es[1..]);
    }
  }

  /** The packets since the last removal are the last of all packets about the key. */
  lemma {:induction false} SinceIsSuffix(ops: seq<Op>, k: Key)
    ensures Ends(About(SentBy(ops), k), SentSince(ops, k))
  {
    if ops != [] && !Removes(Last(ops), k) {
      var before := ops[..|ops| - 1];
      var more := Output(Entries(before), Last(ops));
      SinceIsSuffix(before, k);
      AboutMore(SentBy(before), more, k);
      SuffixAppend(About(SentBy(before), k), SentSince(before, k), About(more, k));
    }
  }

  ghost predicate Ends<T>(all: seq<T>, since: seq<T>)
  {
    |since| <= |all| && all[|all| - |since|..] == since
  }

  lemma AboutMore(sent: seq<Emission>, more: seq<Emission>, k: Key)
    ensures About(sent + more, k) == About(sent, k) + About(more, k)
  {
    FilterAppend(m => Concerns(m, k), sent, more);
  }

  lemma SuffixAppend<T>(all: seq<T>, since: seq<T>, more: seq<T>)
    requires Ends(all, since)
    ensures Ends(all + more, since + more)
  {
  }
}
