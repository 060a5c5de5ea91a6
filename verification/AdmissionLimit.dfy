/**
 Exactly when the player limit is kept by several threads: player ids have 16 bits,
 so a limit of 65534 cannot be passed; a smaller one is, by orderly runs.
 */
module AdmissionLimit {
  import opened Bytes
  import opened GameServer
  import opened Lifecycle
  import opened PlayerLimit
  import opened Admission
  import Counters = Capacity
  import Tcp = TcpServer

  const MOST: nat := 65534

  /** The ids 1 to k. */
  function Ids(k: nat): set<u16>
    requires k <= MOST
  {
    if k == 0 then {} else Ids(k - 1) + {k}
  }

  lemma {:induction false} InIds(k: nat, p: u16)
    requires k <= MOST
    ensures p in Ids(k) <==> 1 <= p <= k
  {
    if k > 0 { InIds(k - 1, p); }
  }

  lemma {:induction false} IdsSize(k: nat)
    requires k <= MOST
    ensures |Ids(k)| == k
  {
    if k > 0 {
      IdsSize(k - 1);
      InIds(k - 1, k);
    }
  }

  lemma OneMoreId(k: nat)
    requires k < MOST
    ensures Ids(k + 1) == Ids(k) + {k + 1} && k + 1 !in Ids(k)
  {
    InIds(k, k + 1);
  }

  // ---------- how many ids there are ----------

  ghost predicate IdsInRange(s: Tables)
  {
    s.nextPlayer >= 1 && forall p :: p in s.players ==> 1 <= p <= MOST
  }

  lemma RangeSize(all: set<u16>, k: nat)
    requires k <= MOST && forall p :: p in all ==> 1 <= p <= k
    ensures |all| <= k
  {
    forall p | p in all ensures p in Ids(k) { InIds(k, p); }
    IdsSize(k);
    SubsetSize(all, Ids(k));
  }

  lemma CloseStaysInRange(s: Tables, sid: u16)
    requires IdsInRange(s)
    ensures IdsInRange(CloseSession(s, sid)) && IdsInRange(Disconnect(s, sid))
  {
  }

  lemma RegisterStaysInRange(s: Tables, sid: u16, request: AuthRequest)
    requires IdsInRange(s) && request.Request?
    ensures IdsInRange(Register(s, sid, NewPlayer(s, request)))
  {
  }

  lemma ConcludedStaysInRange(s: Tables, sid: u16, p: Player, veto: bool)
    requires IdsInRange(s)
    ensures IdsInRange(Concluded(s, sid, p, veto))
  {
    var u := s.(players := s.players - {p.id}, sessionToPlayer := s.sessionToPlayer - {sid});
    CloseStaysInRange(Send(u, sid, Tcp.AuthError(Tcp.Vetoed)), sid);
  }

  lemma AuthStaysInRange(cfg: Config, s: Tables, sid: u16, request: AuthRequest, veto: bool)
    requires IdsInRange(s)
    ensures IdsInRange(HandleAuth(cfg, s, sid, request, veto))
  {
    match Refusal(cfg, s, request)
    case Some(reason) => CloseStaysInRange(Send(s, sid, Tcp.AuthError(reason)), sid);
    case None =>
      var p := NewPlayer(s, request);
      RegisterStaysInRange(s, sid, request);
      ConcludedStaysInRange(Register(s, sid, p), sid, p, veto && request.username != BRIDGE);
      assert HandleAuth(cfg, s, sid, request, veto)
             == Concluded(Register(s, sid, p), sid, p, veto && request.username != BRIDGE);
  }

  lemma StepStaysInRange(cfg: Config, s: Tables, op: Op)
    requires IdsInRange(s) && !(op.Packet? && op.control.Auth?)
    ensures IdsInRange(Step(cfg, s, op))
  {
    match op
    case KickPlayer(pid) =>
      forall a ensures IdsInRange(KickSession(s, a)) { CloseStaysInRange(Send(s, a, Tcp.KickNotice), a); }
    case Close(sid) => CloseStaysInRange(s, sid);
    case _ =>
  }

  lemma {:induction false} RunStaysInRange(cfg: Config, n: nat, actions: seq<Action>)
    ensures IdsInRange(Reached(cfg, n, actions).tables)
    decreases |actions|
  {
    if actions != [] {
      var before, a := actions[..|actions| - 1], actions[|actions| - 1];
      var st := Reached(cfg, n, before);
      RunStaysInRange(cfg, n, before);
      match a
      case Check(_, sid, request, veto) => AuthStaysInRange(cfg, st.tables, sid, request, veto);
      case Insert(t) =>
        if t < |st.threads| && st.threads[t].Admitted? && st.threads[t].request.Request? {
          RegisterStaysInRange(st.tables, st.threads[t].sid, st.threads[t].request);
        }
      case Settle(t) =>
        if t < |st.threads| && st.threads[t].Entered? {
          ConcludedStaysInRange(st.tables, st.threads[t].sid, st.threads[t].player, st.threads[t].veto);
        }
      case Other(op) => if !(op.Packet? && op.control.Auth?) { StepStaysInRange(cfg, st.tables, op); }
    }
  }

  // ---------- a crowd that logs in ----------

  /** Players 1 to k are in, each on the session of its number; sessions 1 to a are open. */
  ghost predicate Crowd(s: Tables, k: nat, a: nat)
  {
    && k <= a <= MOST
    && s.players.Keys == Ids(k) && s.sessionToPlayer.Keys == Ids(k) && s.nextPlayer == k + 1
    && s.tcp.sessions == Ids(a) && s.tcp.nextSession == a + 1
    && forall p :: p in s.players ==> s.players[p].username == DRIVER
  }

  function DriverRequest(cfg: Config): AuthRequest
  {
    Request(DRIVER, cfg.password, "player")
  }

  lemma CrowdCounts(s: Tables, k: nat, a: nat)
    requires Crowd(s, k, a)
    ensures |Normal(s)| == k && |s.players| == k
  {
    assert |DRIVER| != |BRIDGE|;
    assert Normal(s) == Ids(k);
    IdsSize(k);
    assert |s.players| == |s.players.Keys|;
  }

  lemma CrowdPasses(cfg: Config, s: Tables, k: nat, a: nat)
    requires Crowd(s, k, a) && k < cfg.maxPlayers
    ensures Limited(cfg, s, DriverRequest(cfg))
  {
    CrowdCounts(s, k, a);
    assert |DRIVER| != |BRIDGE|;
  }

  lemma CrowdAccepts(s: Tables, k: nat, a: nat)
    requires Crowd(s, k, a) && a < MOST
    ensures Crowd(s.(tcp := Tcp.Accept(s.tcp)), k, a + 1)
  {
    OneMoreId(a);
  }

  lemma CrowdInserts(cfg: Config, s: Tables, k: nat, a: nat)
    requires Crowd(s, k, a) && k < a
    ensures Admissible(s, k + 1, false)
    ensures Crowd(Register(s, k + 1, NewPlayer(s, DriverRequest(cfg))), k + 1, a)
  {
    OneMoreId(k);
    InIds(a, k + 1);
    var p := NewPlayer(s, DriverRequest(cfg));
    assert Register(s, k + 1, p).players == s.players[p.id := p];
  }

  lemma CrowdSettles(s: Tables, k: nat, a: nat, sid: u16, p: Player)
    requires Crowd(s, k, a)
    ensures Crowd(Concluded(s, sid, p, false), k, a)
  {
  }

  // ---------- runs ----------

  /** An orderly run leads to such a crowd, with the threads as told. */
  ghost predicate Leads(cfg: Config, n: nat, actions: seq<Action>, k: nat, a: nat, threads: seq<Thread>)
  {
    var st := Reached(cfg, n, actions);
    Orderly(cfg, n, actions) && Crowd(st.tables, k, a) && st.threads == threads
  }

  lemma AcceptOne(cfg: Config, n: nat, actions: seq<Action>, k: nat, a: nat, threads: seq<Thread>)
    requires Leads(cfg, n, actions, k, a, threads) && a < MOST
    ensures Leads(cfg, n, actions + [Other(Accept)], k, a + 1, threads)
  {
    OneMoreAction(cfg, n, actions, Other(Accept));
    CrowdAccepts(Reached(cfg, n, actions).tables, k, a);
  }

  lemma CheckOne(cfg: Config, n: nat, actions: seq<Action>, k: nat, a: nat, threads: seq<Thread>, t: nat)
    requires Leads(cfg, n, actions, k, a, threads) && 1 <= a <= MOST && k < cfg.maxPlayers
    requires t < |threads| && threads[t] == Idle
    ensures Leads(cfg, n, actions + [Check(t, a, DriverRequest(cfg), false)], k, a,
                  threads[t := Admitted(a, DriverRequest(cfg), false)])
  {
    CrowdPasses(cfg, Reached(cfg, n, actions).tables, k, a);
    OneMoreAction(cfg, n, actions, Check(t, a, DriverRequest(cfg), false));
  }

  lemma InsertOne(cfg: Config, n: nat, actions: seq<Action>, k: nat, a: nat, threads: seq<Thread>, t: nat)
    returns (p: Player)
    requires Leads(cfg, n, actions, k, a, threads) && k < a <= MOST
    requires t < |threads| && threads[t] == Admitted(k + 1, DriverRequest(cfg), false)
    ensures Leads(cfg, n, actions + [Insert(t)], k + 1, a, threads[t := Entered(k + 1, p, false)])
  {
    p := NewPlayer(Reached(cfg, n, actions).tables, DriverRequest(cfg));
    CrowdInserts(cfg, Reached(cfg, n, actions).tables, k, a);
    OneMoreAction(cfg, n, actions, Insert(t));
  }

  lemma SettleOne(cfg: Config, n: nat, actions: seq<Action>, k: nat, a: nat, threads: seq<Thread>, t: nat)
    requires Leads(cfg, n, actions, k, a, threads) && t < |threads| && threads[t].Entered? && !threads[t].veto
    ensures Leads(cfg, n, actions + [Settle(t)], k, a, threads[t := Idle])
  {
    CrowdSettles(Reached(cfg, n, actions).tables, k, a, threads[t].sid, threads[t].player);
    OneMoreAction(cfg, n, actions, Settle(t));
  }

  /** One player comes in on thread 0, with nothing in between. */
  lemma OneEnters(cfg: Config, n: nat, before: seq<Action>, k: nat) returns (actions: seq<Action>)
    requires n >= 1 && k < cfg.maxPlayers && k < MOST && Leads(cfg, n, before, k, k, AllIdle(n))
    ensures Leads(cfg, n, actions, k + 1, k + 1, AllIdle(n))
  {
    hide Leads;
    var idle := AllIdle(n);
    AcceptOne(cfg, n, before, k, k, idle);
    actions := before + [Other(Accept)];
    CheckOne(cfg, n, actions, k, k + 1, idle, 0);
    actions := actions + [Check(0, k + 1, DriverRequest(cfg), false)];
    var waiting := idle[0 := Admitted(k + 1, DriverRequest(cfg), false)];
    var p := InsertOne(cfg, n, actions, k, k + 1, waiting, 0);
    actions := actions + [Insert(0)];
    SettleOne(cfg, n, actions, k + 1, k + 1, waiting[0 := Entered(k + 1, p, false)], 0);
    actions := actions + [Settle(0)];
    assert waiting[0 := Entered(k + 1, p, false)][0 := Idle] == idle;
  }

  lemma NobodyYet(cfg: Config, n: nat)
    ensures Leads(cfg, n, [], 0, 0, AllIdle(n))
  {
  }

  /** One thread alone lets `k` players in, one after the other. */
  lemma {:induction false} FillUp(cfg: Config, n: nat, k: nat) returns (actions: seq<Action>)
    requires n >= 1 && k <= cfg.maxPlayers && k <= MOST
    ensures Leads(cfg, n, actions, k, k, AllIdle(n))
    decreases k
  {
    hide Leads;
    if k == 0 {
      actions := [];
      NobodyYet(cfg, n);
    } else {
      actions := FillUp(cfg, n, k - 1);
      actions := OneEnters(cfg, n, actions, k - 1);
    }
  }

  /** Of `n` threads the first `j` have inserted, those up to `k` wait with the sessions after `base`. */
  ghost predicate Queue(cfg: Config, threads: seq<Thread>, n: nat, j: nat, k: nat, base: nat)
  {
    && |threads| == n && j <= k <= n && base + k <= MOST
    && (forall i :: 0 <= i < j ==> threads[i].Entered?)
    && (forall i :: j <= i < k ==> threads[i] == Admitted(base + i + 1, DriverRequest(cfg), false))
    && (forall i :: k <= i < n ==> threads[i] == Idle)
  }

  /** With one place left, `k` threads check before any of them inserts. */
  lemma {:induction false} AllCheck(cfg: Config, n: nat, k: nat) returns (actions: seq<Action>, threads: seq<Thread>)
    requires n >= 1 && k <= n && cfg.maxPlayers >= 1 && cfg.maxPlayers - 1 + k <= MOST
    ensures var base := cfg.maxPlayers - 1;
            Leads(cfg, n, actions, base, base + k, threads) && Queue(cfg, threads, n, 0, k, base)
    decreases k
  {
    hide Leads;
    var base := cfg.maxPlayers - 1;
    if k == 0 {
      actions := FillUp(cfg, n, base);
      threads := AllIdle(n);
    } else {
      actions, threads := AllCheck(cfg, n, k - 1);
      AcceptOne(cfg, n, actions, base, base + k - 1, threads);
      actions := actions + [Other(Accept)];
      CheckOne(cfg, n, actions, base, base + k, threads, k - 1);
      actions := actions + [Check(k - 1, base + k, DriverRequest(cfg), false)];
      threads := threads[k - 1 := Admitted(base + k, DriverRequest(cfg), false)];
    }
  }

  /** Then they insert, in order. */
  lemma {:induction false} AllInsert(cfg: Config, n: nat, m: nat, j: nat)
    returns (actions: seq<Action>, threads: seq<Thread>)
    requires j <= m <= n && n >= 1 && cfg.maxPlayers >= 1 && cfg.maxPlayers - 1 + m <= MOST
    ensures var base := cfg.maxPlayers - 1;
            Leads(cfg, n, actions, base + j, base + m, threads) && Queue(cfg, threads, n, j, m, base)
    decreases j
  {
    hide Leads;
    var base := cfg.maxPlayers - 1;
    if j == 0 {
      actions, threads := AllCheck(cfg, n, m);
    } else {
      actions, threads := AllInsert(cfg, n, m, j - 1);
      var p := InsertOne(cfg, n, actions, base + j - 1, base + m, threads, j - 1);
      actions := actions + [Insert(j - 1)];
      threads := threads[j - 1 := Entered(base + j, p, false)];
    }
  }

  // ---------- the theorems ----------

  /** The bound is met: `m` of the threads take the server to m - 1 players above the limit, as far as there are ids. */
  lemma BoundIsMet(cfg: Config, n: nat, m: nat) returns (actions: seq<Action>)
    requires 1 <= m <= n && cfg.maxPlayers >= 1 && cfg.maxPlayers - 1 + m <= MOST
    ensures Orderly(cfg, n, actions) && |Normal(Reached(cfg, n, actions).tables)| == cfg.maxPlayers + m - 1
  {
    var threads;
    actions, threads := AllInsert(cfg, n, m, m);
    CrowdCounts(Reached(cfg, n, actions).tables, cfg.maxPlayers - 1 + m, cfg.maxPlayers - 1 + m);
  }

  ghost predicate AlwaysKept(cfg: Config, n: nat)
  {
    forall actions :: WithinLimit(cfg, Reached(cfg, n, actions).tables)
  }

  /**
   Exactly when the limit is kept on all runs: one thread alone handles the requests,
   or no one is let in, or there are no more player ids than the limit.
   */
  lemma SharedLimitIff(cfg: Config, n: nat)
    requires n >= 1
    ensures AlwaysKept(cfg, n) <==> n == 1 || cfg.maxPlayers <= 0 || cfg.maxPlayers >= MOST
  {
    if n == 1 || cfg.maxPlayers <= 0 {
      forall actions ensures WithinLimit(cfg, Reached(cfg, n, actions).tables) { SharedBound(cfg, n, actions); }
    } else if cfg.maxPlayers >= MOST {
      forall actions ensures WithinLimit(cfg, Reached(cfg, n, actions).tables) {
        RunStaysInRange(cfg, n, actions);
        RangeSize(Normal(Reached(cfg, n, actions).tables), MOST);
      }
    } else {
      var actions := BoundIsMet(cfg, n, 2);
      assert !WithinLimit(cfg, Reached(cfg, n, actions).tables);
    }
  }

  /** The server starts at least two threads, so every limit from 1 to 65533 can be passed. */
  lemma ServerPassesLimit(cfg: Config, hardware: nat)
    requires 1 <= cfg.maxPlayers < MOST
    ensures !AlwaysKept(cfg, Counters.IoThreads(hardware))
  {
    SharedLimitIff(cfg, Counters.IoThreads(hardware));
  }
}
