/**
 The player limit under concurrency: each of N threads checks the number of
 players and, later, inserts one. The check and the insertion take the lock
 separately, so other threads act in between.
 */
module Capacity {
  datatype Thread = Idle | Admitted

  /** `normal` and `bridges` count the players of either kind. */
  datatype Server = Server(threads: seq<Thread>, normal: nat, bridges: nat)

  datatype Action =
    | Check(thread: nat)         // reads the count, admits or refuses
    | Insert(thread: nat)        // registers the admitted player
    | InsertBridge               // registers a bridge; no limit applies
    | Leave                      // a player's session closes, or a plugin vetoes it
    | LeaveBridge

  predicate Enabled(s: Server, a: Action)
  {
    match a
    case Check(t) => t < |s.threads| && s.threads[t] == Idle
    case Insert(t) => t < |s.threads| && s.threads[t] == Admitted
    case InsertBridge => true
    case Leave => s.normal > 0
    case LeaveBridge => s.bridges > 0
  }

  /** An action that is not enabled does not happen. */
  function Next(max: int, s: Server, a: Action): Server
  {
    if !Enabled(s, a) then s
    else match a
      case Check(t) => if s.normal + s.bridges >= max then s else s.(threads := s.threads[t := Admitted])
      case Insert(t) => s.(threads := s.threads[t := Idle], normal := s.normal + 1)
      case InsertBridge => s.(bridges := s.bridges + 1)
      case Leave => s.(normal := s.normal - 1)
      case LeaveBridge => s.(bridges := s.bridges - 1)
  }

  function Initial(n: nat): (s: Server)
    ensures |s.threads| == n
  {
    Server(seq(n, _ => Idle), 0, 0)
  }

  /** The server with `n` threads after a run. */
  function After(n: nat, max: int, actions: seq<Action>): Server
  {
    if actions == [] then Initial(n)
    else Next(max, After(n, max, actions[..|actions| - 1]), actions[|actions| - 1])
  }

  function CountAdmitted(threads: seq<Thread>): nat
  {
    if threads == [] then 0 else (if threads[0] == Admitted then 1 else 0) + CountAdmitted(threads[1..])
  }

  lemma {:induction false} CountBound(threads: seq<Thread>)
    ensures CountAdmitted(threads) <= |threads|
  {
    if threads != [] { CountBound(threads[1..]); }
  }

  lemma {:induction false} CountUpdate(threads: seq<Thread>, t: nat, x: Thread)
    requires t < |threads|
    ensures CountAdmitted(threads[t := x])
            == CountAdmitted(threads) - (if threads[t] == Admitted then 1 else 0) + if x == Admitted then 1 else 0
  {
    if t == 0 {
      assert threads[0 := x][1..] == threads[1..];
    } else {
      CountUpdate(threads[1..], t - 1, x);
      assert threads[t := x][1..] == threads[1..][t - 1 := x];
    }
  }

  /** Players and pending admissions together stay below the limit plus the number of threads. */
  ghost predicate Bounded(n: nat, max: int, s: Server)
  {
    && |s.threads| == n
    && s.normal + CountAdmitted(s.threads) <= if n == 0 || max <= 0 then 0 else max + n - 1
  }

  lemma StepKeepsBound(n: nat, max: int, s: Server, a: Action)
    requires Bounded(n, max, s)
    ensures Bounded(n, max, Next(max, s, a))
  {
    if Enabled(s, a) {
      match a
      case Check(t) =>
        CountUpdate(s.threads, t, Admitted);
        CountBound(s.threads[t := Admitted]);
      case Insert(t) => CountUpdate(s.threads, t, Idle);
      case _ =>
    }
  }

  lemma {:induction false} IdleCount(n: nat)
    ensures CountAdmitted(Initial(n).threads) == 0
  {
    if n > 0 {
      IdleCount(n - 1);
      assert Initial(n).threads[1..] == Initial(n - 1).threads;
    }
  }

  /** With N threads the limit is passed by at most N - 1 players, bridges not counted. */
  lemma {:induction false} CapacityBound(n: nat, max: int, actions: seq<Action>)
    ensures Bounded(n, max, After(n, max, actions))
    ensures n >= 1 && max >= 1 ==> After(n, max, actions).normal <= max + n - 1
    ensures max <= 0 ==> After(n, max, actions).normal == 0
    decreases |actions|
  {
    if actions == [] {
      IdleCount(n);
    } else {
      var before, a := actions[..|actions| - 1], actions[|actions| - 1];
      CapacityBound(n, max, before);
      StepKeepsBound(n, max, After(n, max, before), a);
    }
  }

  // ---------- the bound is met ----------

  lemma Extend(n: nat, max: int, actions: seq<Action>, a: Action)
    ensures After(n, max, actions + [a]) == Next(max, After(n, max, actions), a)
  {
    assert (actions + [a])[..|actions|] == actions;
  }

  function Mixed(n: nat, admitted: nat): (threads: seq<Thread>)
    requires admitted <= n
    ensures |threads| == n
  {
    seq(n, i => if i < admitted then Admitted else Idle)
  }

  /** One thread alone fills the server to `k` players. */
  lemma {:induction false} Fill(n: nat, max: int, k: nat) returns (actions: seq<Action>)
    requires n >= 1 && k <= max
    ensures After(n, max, actions) == Server(Mixed(n, 0), k, 0)
    decreases k
  {
    if k == 0 {
      actions := [];
      assert Mixed(n, 0) == Initial(n).threads;
    } else {
      actions := Fill(n, max, k - 1);
      var s := Server(Mixed(n, 0), k - 1, 0);
      Extend(n, max, actions, Check(0));
      var t := Next(max, s, Check(0));
      Extend(n, max, actions + [Check(0)], Insert(0));
      actions := actions + [Check(0)] + [Insert(0)];
      assert Next(max, t, Insert(0)).threads == Mixed(n, 0);
    }
  }

  /** With one place left, `k` threads are admitted to it. */
  lemma {:induction false} AdmitMany(n: nat, max: int, k: nat) returns (actions: seq<Action>)
    requires n >= 1 && max >= 1 && k <= n
    ensures After(n, max, actions) == Server(Mixed(n, k), max - 1, 0)
    decreases k
  {
    if k == 0 {
      actions := Fill(n, max, max - 1);
    } else {
      actions := AdmitMany(n, max, k - 1);
      var s := Server(Mixed(n, k - 1), max - 1, 0);
      Extend(n, max, actions, Check(k - 1));
      actions := actions + [Check(k - 1)];
      assert Next(max, s, Check(k - 1)).threads == Mixed(n, k);
    }
  }

  /** Then they all insert, the last first. */
  lemma {:induction false} InsertMany(n: nat, max: int, k: nat) returns (actions: seq<Action>)
    requires n >= 1 && max >= 1 && k <= n
    ensures After(n, max, actions) == Server(Mixed(n, k), max - 1 + n - k, 0)
    decreases n - k
  {
    if k == n {
      actions := AdmitMany(n, max, n);
    } else {
      actions := InsertMany(n, max, k + 1);
      var s := Server(Mixed(n, k + 1), max - 1 + n - k - 1, 0);
      Extend(n, max, actions, Insert(k));
      actions := actions + [Insert(k)];
      assert Next(max, s, Insert(k)).threads == Mixed(n, k);
    }
  }

  ghost predicate NeverExceeded(n: nat, max: int)
  {
    forall actions :: After(n, max, actions).normal <= max
  }

  /** A positive limit is kept on all runs exactly when one thread alone serves the network. */
  lemma LimitKeptIff(n: nat, max: int)
    requires n >= 1 && max >= 1
    ensures NeverExceeded(n, max) <==> n == 1
    ensures exists actions :: After(n, max, actions).normal == max + n - 1
  {
    forall actions ensures After(n, max, actions).normal <= max + n - 1 {
      CapacityBound(n, max, actions);
    }
    var actions := InsertMany(n, max, 0);
    assert After(n, max, actions).normal == max + n - 1;
  }

  /** The server starts at least two threads, so some run exceeds any positive limit. */
  function IoThreads(hardware: nat): (n: nat)
    ensures n >= 2 && n >= hardware && (n == 2 || n == hardware)
  {
    if hardware > 2 then hardware else 2
  }

  lemma ShippedServerExceeds(hardware: nat, max: int)
    requires max >= 1
    ensures !NeverExceeded(IoThreads(hardware), max)
  {
    LimitKeptIff(IoThreads(hardware), max);
  }
}
