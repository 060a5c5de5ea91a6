/** The vehicle ids of one player: the next id is the number of vehicles, truncated to a byte. */
module PlayerVehicles {
  import opened Bytes
  import opened GameServer

  datatype Op = SpawnOne | DeleteOne(vid: byte)

  function Apply(limit: int, vs: seq<byte>, op: Op): seq<byte>
  {
    match op
    case SpawnOne => if |vs| >= limit then vs else AddVehicle(vs)
    case DeleteOne(vid) => DropVehicle(vs, vid)
  }

  function Run(limit: int, ops: seq<Op>): seq<byte>
  {
    if ops == [] then [] else Apply(limit, Run(limit, ops[..|ops| - 1]), ops[|ops| - 1])
  }

  /** The ids 0 to n - 1 in order. */
  ghost predicate Counting(vs: seq<byte>)
  {
    forall i :: 0 <= i < |vs| ==> vs[i] == i
  }

  lemma {:induction false} DropAbsent(vs: seq<byte>, vid: byte)
    requires vid !in vs
    ensures DropVehicle(vs, vid) == vs
  {
    if vs != [] {
      assert vs[0] in vs;
      DropAbsent(vs[1..], vid);
    }
  }

  /** Deleting from ids in order drops the one vehicle, and moves the later ones up. */
  lemma DropFromCounting(vs: seq<byte>, vid: byte)
    requires Counting(vs)
    ensures DropVehicle(vs, vid) == if vid < |vs| then vs[..vid] + vs[vid + 1..] else vs
  {
    if vid < |vs| {
      var a, b := vs[..vid], vs[vid + 1..];
      assert vs == a + ([vid] + b);
      FilterAppend((v: byte) => v != vid, a, [vid] + b);
      DropAbsent(a, vid);
      DropAbsent(b, vid);
    } else {
      DropAbsent(vs, vid);
    }
  }

  /** Ids in order stay in order exactly when the deleted id is the highest, or is not there. */
  lemma DropKeepsCountingIff(vs: seq<byte>, vid: byte)
    requires Counting(vs)
    ensures Counting(DropVehicle(vs, vid)) <==> vid >= |vs| - 1
  {
    DropFromCounting(vs, vid);
    if vid < |vs| - 1 {
      assert DropVehicle(vs, vid)[vid] == vs[vid + 1];
    }
  }

  /** Every delete of the run takes the highest id there is, or none. */
  ghost predicate LastFirst(limit: int, ops: seq<Op>)
  {
    ops == [] ||
    var before, op := ops[..|ops| - 1], ops[|ops| - 1];
    LastFirst(limit, before) && (op.DeleteOne? ==> op.vid >= |Run(limit, before)| - 1)
  }

  lemma StepCounts(limit: int, vs: seq<byte>, op: Op)
    requires 0 <= limit <= 0x100 && Counting(vs) && |vs| <= limit
    requires op.DeleteOne? ==> op.vid >= |vs| - 1
    ensures Counting(Apply(limit, vs, op)) && |Apply(limit, vs, op)| <= limit
  {
    if op.DeleteOne? {
      DropKeepsCountingIff(vs, op.vid);
      DropFromCounting(vs, op.vid);
    }
  }

  /** On such runs the ids are 0 to n - 1 in order, below the limit. */
  lemma {:induction false} LastFirstCounts(limit: int, ops: seq<Op>)
    requires 0 <= limit <= 0x100 && LastFirst(limit, ops)
    ensures Counting(Run(limit, ops)) && |Run(limit, ops)| <= limit
  {
    if ops != [] {
      var before, op := ops[..|ops| - 1], ops[|ops| - 1];
      LastFirstCounts(limit, before);
      StepCounts(limit, Run(limit, before), op);
    }
  }

  // ---------- uniqueness ----------

  ghost predicate Unique(vs: seq<byte>)
  {
    forall i, j :: 0 <= i < j < |vs| ==> vs[i] != vs[j]
  }

  /** A spawn keeps the ids different exactly when no vehicle has the number of vehicles, cut to a byte, for its id. */
  lemma SpawnKeepsUniqueIff(vs: seq<byte>)
    requires Unique(vs)
    ensures Unique(AddVehicle(vs)) <==> |vs| % 0x100 !in vs
  {
    var us := AddVehicle(vs);
    if |vs| % 0x100 in vs {
      var i :| 0 <= i < |vs| && vs[i] == |vs| % 0x100;
      assert us[i] == us[|vs|];
    }
  }

  lemma {:induction false} DropKeepsUnique(vs: seq<byte>, vid: byte)
    requires Unique(vs)
    ensures Unique(DropVehicle(vs, vid))
  {
    if vs != [] {
      var rest := DropVehicle(vs[1..], vid);
      DropKeepsUnique(vs[1..], vid);
      FilterMembers((v: byte) => v != vid, vs[1..]);
      forall j | 0 <= j < |rest| ensures rest[j] != vs[0] {
        assert rest[j] in vs[1..];
        var i :| 0 <= i < |vs| - 1 && vs[1..][i] == rest[j];
        assert vs[i + 1] != vs[0];
      }
    }
  }

  /** The spawn that comes next finds its id free, or is refused for the limit. */
  ghost predicate FreeFor(limit: int, vs: seq<byte>, op: Op)
  {
    op.SpawnOne? && |vs| < limit ==> |vs| % 0x100 !in vs
  }

  ghost predicate AlwaysUnique(limit: int, ops: seq<Op>)
  {
    forall n :: 0 <= n <= |ops| ==> Unique(Run(limit, ops[..n]))
  }

  ghost predicate AlwaysFree(limit: int, ops: seq<Op>)
  {
    forall n :: 0 <= n < |ops| ==> FreeFor(limit, Run(limit, ops[..n]), ops[n])
  }

  lemma RunNext(limit: int, ops: seq<Op>, n: nat)
    requires n < |ops|
    ensures Run(limit, ops[..n + 1]) == Apply(limit, Run(limit, ops[..n]), ops[n])
  {
    assert ops[..n + 1][..n] == ops[..n];
  }

  lemma {:induction false} UniqueUpTo(limit: int, ops: seq<Op>, n: nat)
    requires AlwaysFree(limit, ops) && n <= |ops|
    ensures Unique(Run(limit, ops[..n]))
  {
    if n > 0 {
      var vs, op := Run(limit, ops[..n - 1]), ops[n - 1];
      UniqueUpTo(limit, ops, n - 1);
      RunNext(limit, ops, n - 1);
      assert FreeFor(limit, vs, op);
      SpawnKeepsUniqueIff(vs);
      if op.DeleteOne? { DropKeepsUnique(vs, op.vid); }
    }
  }

  /** The ids stay different all along a run exactly if every spawn that is let through finds its id free. */
  lemma UniqueIff(limit: int, ops: seq<Op>)
    ensures AlwaysUnique(limit, ops) <==> AlwaysFree(limit, ops)
  {
    if AlwaysFree(limit, ops) {
      forall n | 0 <= n <= |ops| ensures Unique(Run(limit, ops[..n])) { UniqueUpTo(limit, ops, n); }
    }
    if AlwaysUnique(limit, ops) {
      forall n | 0 <= n < |ops| ensures FreeFor(limit, Run(limit, ops[..n]), ops[n]) {
        RunNext(limit, ops, n);
        assert Unique(Run(limit, ops[..n])) && Unique(Run(limit, ops[..n + 1]));
        SpawnKeepsUniqueIff(Run(limit, ops[..n]));
      }
    }
  }

  /** A run that ends with two equal ids: spawn, spawn, delete the first, spawn. */
  lemma IdsCanRepeat(limit: int)
    requires limit >= 2
    ensures Run(limit, [SpawnOne, SpawnOne, DeleteOne(0), SpawnOne]) == [1, 1]
  {
    var ops := [SpawnOne, SpawnOne, DeleteOne(0), SpawnOne];
    assert ops[..3] == [SpawnOne, SpawnOne, DeleteOne(0)];
    assert ops[..3][..2] == [SpawnOne, SpawnOne];
    assert ops[..3][..2][..1] == [SpawnOne];
    assert Run(limit, [SpawnOne]) == [0] by { assert [SpawnOne][..0] == []; }
    assert Run(limit, [SpawnOne, SpawnOne]) == [0, 1];
    DropFromCounting([0, 1], 0);
    assert Run(limit, [SpawnOne, SpawnOne, DeleteOne(0)]) == [1];
  }
}
