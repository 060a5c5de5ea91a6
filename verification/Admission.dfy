/**
 The player limit when several threads handle requests: the check of the number of
 players, the insertion and the answer are separate steps of a thread, over the
 server's tables, and any other step may come in between.
 */
module Admission {
  import opened Bytes
  import opened GameServer
  import opened Lifecycle
  import opened PlayerLimit
  import Counters = Capacity
  import Tcp = TcpServer

  /** A thread is idle, holds a request that passed the check, or has a player that awaits the plugins' answer. */
  datatype Thread =
    | Idle
    | Admitted(sid: u16, request: AuthRequest, veto: bool)
    | Entered(sid: u16, player: Player, veto: bool)

  datatype Shared = Shared(tables: Tables, threads: seq<Thread>)

  datatype Action =
    | Check(thread: nat, sid: u16, request: AuthRequest, veto: bool)
    | Insert(thread: nat)
    | Settle(thread: nat)
    | Other(op: Op)

  /** The request passes the checks, the one of the limit among them; bridges are not limited. */
  predicate Limited(cfg: Config, s: Tables, request: AuthRequest)
  {
    Refusal(cfg, s, request) == None && request.username != BRIDGE
  }

  /** What is left to do once the player is in the tables. */
  function Concluded(s: Tables, sid: u16, p: Player, veto: bool): Tables
  {
    if veto then
      Refuse(s.(players := s.players - {p.id}, sessionToPlayer := s.sessionToPlayer - {sid}), sid, Tcp.Vetoed)
    else Welcome(s, sid, p)
  }

  /** An action its thread is not ready for does not happen; authentications come through the threads only. */
  ghost function Next(cfg: Config, st: Shared, a: Action): Shared
  {
    match a
    case Check(t, sid, request, veto) =>
      if t >= |st.threads| || st.threads[t] != Idle then st
      else if Limited(cfg, st.tables, request) then st.(threads := st.threads[t := Admitted(sid, request, veto)])
      else st.(tables := HandleAuth(cfg, st.tables, sid, request, veto))
    case Insert(t) =>
      if t >= |st.threads| || !st.threads[t].Admitted? || st.threads[t].request.Malformed? then st
      else
        var p := NewPlayer(st.tables, st.threads[t].request);
        Shared(Register(st.tables, st.threads[t].sid, p),
               st.threads[t := Entered(st.threads[t].sid, p, st.threads[t].veto)])
    case Settle(t) =>
      if t >= |st.threads| || !st.threads[t].Entered? then st
      else
        var x := st.threads[t];
        Shared(Concluded(st.tables, x.sid, x.player, x.veto), st.threads[t := Idle])
    case Other(op) => if op.Packet? && op.control.Auth? then st else st.(tables := Step(cfg, st.tables, op))
  }

  function AllIdle(n: nat): (threads: seq<Thread>)
    ensures |threads| == n && forall i :: 0 <= i < n ==> threads[i] == Idle
  {
    if n == 0 then [] else AllIdle(n - 1) + [Idle]
  }

  /** The server with `n` threads after a run. */
  ghost function Reached(cfg: Config, n: nat, actions: seq<Action>): Shared
  {
    if actions == [] then Shared(INITIAL, AllIdle(n))
    else Next(cfg, Reached(cfg, n, actions[..|actions| - 1]), actions[|actions| - 1])
  }

  /** The assumptions on runs of atomic steps, put on the action that changes the tables. */
  ghost predicate OrderlyAction(cfg: Config, st: Shared, a: Action)
  {
    match a
    case Check(_, sid, request, veto) =>
      !Limited(cfg, st.tables, request) ==> Assumed(cfg, st.tables, Packet(sid, Auth(request, veto)))
    case Insert(t) =>
      t < |st.threads| && st.threads[t].Admitted? ==> Admissible(st.tables, st.threads[t].sid, st.threads[t].veto)
    case Settle(_) => true
    case Other(op) => Assumed(cfg, st.tables, op)
  }

  ghost predicate Orderly(cfg: Config, n: nat, actions: seq<Action>)
  {
    actions == [] ||
    var before := actions[..|actions| - 1];
    Orderly(cfg, n, before) && OrderlyAction(cfg, Reached(cfg, n, before), actions[|actions| - 1])
  }

  lemma OneMoreAction(cfg: Config, n: nat, actions: seq<Action>, a: Action)
    ensures Reached(cfg, n, actions + [a]) == Next(cfg, Reached(cfg, n, actions), a)
    ensures Orderly(cfg, n, actions + [a])
            <==> Orderly(cfg, n, actions) && OrderlyAction(cfg, Reached(cfg, n, actions), a)
  {
    assert (actions + [a])[..|actions|] == actions;
  }

  /** The three steps of a thread, with nothing in between, are the handler taken as one step. */
  lemma AloneIsAtomic(cfg: Config, st: Shared, t: nat, sid: u16, request: AuthRequest, veto: bool)
    requires t < |st.threads| && st.threads[t] == Idle
    ensures Next(cfg, Next(cfg, Next(cfg, st, Check(t, sid, request, veto)), Insert(t)), Settle(t))
            == st.(tables := HandleAuth(cfg, st.tables, sid, request, veto))
  {
    if Limited(cfg, st.tables, request) {
      var p := NewPlayer(st.tables, request);
      var admitted := Next(cfg, st, Check(t, sid, request, veto));
      var entered := Next(cfg, admitted, Insert(t));
      assert entered == Shared(Register(st.tables, sid, p), st.threads[t := Entered(sid, p, veto)]);
      assert HandleAuth(cfg, st.tables, sid, request, veto) == Concluded(Register(st.tables, sid, p), sid, p, veto);
      assert st.threads[t := Entered(sid, p, veto)][t := Idle] == st.threads;
    }
  }

  /** The actions that make up one step: the first thread answers requests, all else happens as it is. */
  function ActionsOf(op: Op): seq<Action>
  {
    if op.Packet? && op.control.Auth? then
      [Check(0, op.sid, op.control.request, op.control.veto), Insert(0), Settle(0)]
    else [Other(op)]
  }

  function ActionsOfRun(ops: seq<Op>): seq<Action>
  {
    if ops == [] then [] else ActionsOfRun(ops[..|ops| - 1]) + ActionsOf(ops[|ops| - 1])
  }

  /** Any run of atomic handlers is a run of any threads, in which nothing comes in between. */
  lemma {:induction false} AtomicRunsAreRuns(cfg: Config, n: nat, ops: seq<Op>)
    requires n >= 1
    ensures Reached(cfg, n, ActionsOfRun(ops)) == Shared(After(cfg, ops), AllIdle(n))
    decreases |ops|
  {
    if ops != [] {
      var before, op := ops[..|ops| - 1], ops[|ops| - 1];
      var actions := ActionsOfRun(before);
      AtomicRunsAreRuns(cfg, n, before);
      if op.Packet? && op.control.Auth? {
        var check := Check(0, op.sid, op.control.request, op.control.veto);
        assert actions + ActionsOf(op) == actions + [check] + [Insert(0)] + [Settle(0)];
        OneMoreAction(cfg, n, actions, check);
        OneMoreAction(cfg, n, actions + [check], Insert(0));
        OneMoreAction(cfg, n, actions + [check] + [Insert(0)], Settle(0));
        AloneIsAtomic(cfg, Reached(cfg, n, actions), 0, op.sid, op.control.request, op.control.veto);
      } else {
        OneMoreAction(cfg, n, actions, Other(op));
      }
    }
  }

  // ---------- the bound ----------

  function AsCounter(t: Thread): Counters.Thread
  {
    if t.Admitted? then Counters.Admitted else Counters.Idle
  }

  function AsCounters(threads: seq<Thread>): (r: seq<Counters.Thread>)
    ensures |r| == |threads|
    ensures forall i :: 0 <= i < |r| ==> r[i] == AsCounter(threads[i])
  {
    if threads == [] then [] else AsCounters(threads[..|threads| - 1]) + [AsCounter(threads[|threads| - 1])]
  }

  /** How many requests have passed the check and not been inserted. */
  function Pending(threads: seq<Thread>): nat
  {
    Counters.CountAdmitted(AsCounters(threads))
  }

  lemma PendingUpdate(threads: seq<Thread>, t: nat, x: Thread)
    requires t < |threads|
    ensures Pending(threads[t := x])
            == Pending(threads) - (if threads[t].Admitted? then 1 else 0) + if x.Admitted? then 1 else 0
    ensures Pending(threads[t := x]) <= |threads|
  {
    assert AsCounters(threads[t := x]) == AsCounters(threads)[t := AsCounter(x)];
    Counters.CountUpdate(AsCounters(threads), t, AsCounter(x));
    Counters.CountBound(AsCounters(threads[t := x]));
  }

  /** Players and pending requests together stay below the limit plus the number of threads. */
  ghost predicate Bounded(cfg: Config, n: nat, st: Shared)
  {
    && |st.threads| == n
    && |Normal(st.tables)| + Pending(st.threads) <= if n == 0 || cfg.maxPlayers <= 0 then 0 else cfg.maxPlayers + n - 1
  }

  lemma NotLimitedFrees(cfg: Config, s: Tables, sid: u16, request: AuthRequest, veto: bool)
    requires !Limited(cfg, s, request)
    ensures Normal(HandleAuth(cfg, s, sid, request, veto)) <= Normal(s)
  {
    match Refusal(cfg, s, request)
    case Some(reason) => CloseFrees(Send(s, sid, Tcp.AuthError(reason)), sid);
    case None =>
      assert Normal(HandleAuth(cfg, s, sid, request, veto)) == Normal(Register(s, sid, NewPlayer(s, request)));
  }

  lemma ConcludedFrees(s: Tables, sid: u16, p: Player, veto: bool)
    ensures Normal(Concluded(s, sid, p, veto)) <= Normal(s)
  {
    if veto {
      var u := s.(players := s.players - {p.id}, sessionToPlayer := s.sessionToPlayer - {sid});
      CloseFrees(Send(u, sid, Tcp.AuthError(Tcp.Vetoed)), sid);
    }
  }

  lemma RegisterAdds(s: Tables, sid: u16, p: Player)
    ensures |Normal(Register(s, sid, p))| <= |Normal(s)| + 1
  {
    assert Normal(Register(s, sid, p)) <= Normal(s) + {p.id};
    SubsetSize(Normal(Register(s, sid, p)), Normal(s) + {p.id});
  }

  lemma StepKeepsBound(cfg: Config, n: nat, st: Shared, a: Action)
    requires Bounded(cfg, n, st)
    ensures Bounded(cfg, n, Next(cfg, st, a))
  {
    var u := Next(cfg, st, a);
    match a
    case Check(t, sid, request, veto) =>
      if t < n && st.threads[t] == Idle {
        if Limited(cfg, st.tables, request) {
          PendingUpdate(st.threads, t, Admitted(sid, request, veto));
          SubsetSize(Normal(st.tables), st.tables.players.Keys);
          assert |st.tables.players.Keys| == |st.tables.players|;
        } else {
          NotLimitedFrees(cfg, st.tables, sid, request, veto);
          SubsetSize(Normal(u.tables), Normal(st.tables));
        }
      }
    case Insert(t) =>
      if u != st {
        PendingUpdate(st.threads, t, u.threads[t]);
        RegisterAdds(st.tables, st.threads[t].sid, u.threads[t].player);
      }
    case Settle(t) =>
      if u != st && t < n && st.threads[t].Entered? {
        PendingUpdate(st.threads, t, Idle);
        ConcludedFrees(st.tables, st.threads[t].sid, st.threads[t].player, st.threads[t].veto);
        SubsetSize(Normal(u.tables), Normal(st.tables));
      }
    case Other(op) =>
      if !(op.Packet? && op.control.Auth?) {
        OthersFree(cfg, st.tables, op);
        SubsetSize(Normal(u.tables), Normal(st.tables));
      }
  }

  lemma IdlePending(n: nat)
    ensures Pending(AllIdle(n)) == 0
  {
    assert AsCounters(AllIdle(n)) == Counters.Initial(n).threads;
    Counters.IdleCount(n);
  }

  /**
   With N threads, on any run of checks, insertions and answers interleaved with any
   other steps, the limit is passed by at most N - 1 players, bridges not counted.
   */
  lemma {:induction false} SharedBound(cfg: Config, n: nat, actions: seq<Action>)
    ensures Bounded(cfg, n, Reached(cfg, n, actions))
    decreases |actions|
  {
    if actions == [] {
      IdlePending(n);
      assert Normal(INITIAL) == {};
    } else {
      var before := actions[..|actions| - 1];
      SharedBound(cfg, n, before);
      StepKeepsBound(cfg, n, Reached(cfg, n, before), actions[|actions| - 1]);
    }
  }
}
