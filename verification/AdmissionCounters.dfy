/**
 The counters of `Capacity` as an abstraction of the server's tables: every orderly
 run of checks, insertions, answers and other steps counts like a run of the counters.
 */
module AdmissionCounters {
  import opened Bytes
  import opened GameServer
  import opened Lifecycle
  import opened PlayerLimit
  import opened Admission
  import Counters = Capacity
  import Tcp = TcpServer

  function Bridges(s: Tables): set<u16>
  {
    s.players.Keys - Normal(s)
  }

  function Abstract(st: Shared): Counters.Server
  {
    Counters.Server(AsCounters(st.threads), |Normal(st.tables)|, |Bridges(st.tables)|)
  }

  lemma Partition(s: Tables)
    ensures |s.players| == |Normal(s)| + |Bridges(s)|
  {
    assert s.players.Keys == Normal(s) + Bridges(s);
    assert |s.players| == |s.players.Keys|;
  }

  /** One action of the counters, or none, does the same to the counts. */
  ghost predicate CountsAs(max: int, st: Shared, u: Shared, c: seq<Counters.Action>)
  {
    |c| <= 1 && Abstract(u) == if c == [] then Abstract(st) else Counters.Next(max, Abstract(st), c[0])
  }

  // ---------- losing a player ----------

  /** At most the player `p` is gone; the others keep their names. */
  ghost predicate Lost(s: Tables, t: Tables, p: u16)
  {
    && (t.players.Keys == s.players.Keys || t.players.Keys == s.players.Keys - {p})
    && forall q :: q in t.players ==> q in s.players && t.players[q].username == s.players[q].username
  }

  lemma CloseLoses(s: Tables, sid: u16)
    ensures var p := if sid in s.sessionToPlayer then s.sessionToPlayer[sid] else 0;
            Lost(s, CloseSession(s, sid), p) && Lost(s, Disconnect(s, sid), p)
  {
  }

  lemma RefusalLoses(cfg: Config, s: Tables, sid: u16, request: AuthRequest, veto: bool)
    requires Refusal(cfg, s, request).Some?
    ensures Lost(s, HandleAuth(cfg, s, sid, request, veto),
                 if sid in s.sessionToPlayer then s.sessionToPlayer[sid] else 0)
  {
    CloseLoses(Send(s, sid, Tcp.AuthError(Refusal(cfg, s, request).value)), sid);
  }

  lemma OthersLose(cfg: Config, s: Tables, op: Op) returns (p: u16)
    requires !(op.Packet? && op.control.Auth?)
    ensures Lost(s, Step(cfg, s, op), p)
  {
    p := 0;
    match op
    case KickPlayer(pid) =>
      p := pid;
      forall a | a in s.sessionToPlayer && s.sessionToPlayer[a] == pid ensures Lost(s, KickSession(s, a), pid) {
        CloseLoses(Send(s, a, Tcp.KickNotice), a);
      }
    case Close(sid) =>
      p := if sid in s.sessionToPlayer then s.sessionToPlayer[sid] else 0;
      CloseLoses(s, sid);
    case _ =>
  }

  lemma ConcludedLoses(s: Tables, sid: u16, p: Player, veto: bool)
    ensures Lost(s, Concluded(s, sid, p, veto), p.id)
  {
    if veto {
      var u := s.(players := s.players - {p.id}, sessionToPlayer := s.sessionToPlayer - {sid});
      CloseLoses(Send(u, sid, Tcp.AuthError(Tcp.Vetoed)), sid);
      assert Concluded(s, sid, p, veto).players == u.players;
    }
  }

  lemma OneLess(all: set<u16>, p: u16)
    requires p in all
    ensures |all - {p}| == |all| - 1
  {
  }

  lemma OneMore(all: set<u16>, p: u16)
    requires p !in all
    ensures |all + {p}| == |all| + 1
  {
  }

  lemma LostNormal(s: Tables, t: Tables, p: u16)
    requires Lost(s, t, p) && t.players.Keys == s.players.Keys - {p} && p in s.players && s.players[p].username != BRIDGE
    ensures |Normal(t)| == |Normal(s)| - 1 && |Bridges(t)| == |Bridges(s)|
  {
    assert Normal(t) == Normal(s) - {p};
    OneLess(Normal(s), p);
    assert Bridges(t) == Bridges(s);
  }

  lemma LostBridge(s: Tables, t: Tables, p: u16)
    requires Lost(s, t, p) && t.players.Keys == s.players.Keys - {p} && p in s.players && s.players[p].username == BRIDGE
    ensures |Normal(t)| == |Normal(s)| && |Bridges(t)| == |Bridges(s)| - 1
  {
    assert Normal(t) == Normal(s);
    assert Bridges(t) == Bridges(s) - {p};
    OneLess(Bridges(s), p);
  }

  lemma LostNone(s: Tables, t: Tables, p: u16)
    requires Lost(s, t, p) && t.players.Keys == s.players.Keys
    ensures |Normal(t)| == |Normal(s)| && |Bridges(t)| == |Bridges(s)|
  {
    assert Normal(t) == Normal(s);
  }

  lemma CountedDown(max: int, a: Counters.Server, b: Counters.Server)
    requires a.threads == b.threads
    ensures a.normal == b.normal + 1 && a.bridges == b.bridges ==> Counters.Next(max, a, Counters.Leave) == b
    ensures a.normal == b.normal && a.bridges == b.bridges + 1 ==> Counters.Next(max, a, Counters.LeaveBridge) == b
  {
  }

  /** Losing a player is one action of the counters, or none. */
  lemma LostCounts(max: int, s: Tables, t: Tables, p: u16, threads: seq<Thread>, after: seq<Thread>)
    returns (c: seq<Counters.Action>)
    requires Lost(s, t, p) && AsCounters(after) == AsCounters(threads)
    ensures CountsAs(max, Shared(s, threads), Shared(t, after), c)
  {
    if p !in s.players || t.players.Keys == s.players.Keys {
      assert p !in s.players ==> s.players.Keys - {p} == s.players.Keys;
      LostNone(s, t, p);
      c := [];
    } else if s.players[p].username == BRIDGE {
      LostBridge(s, t, p);
      c := [Counters.LeaveBridge];
      CountedDown(max, Abstract(Shared(s, threads)), Abstract(Shared(t, after)));
    } else {
      LostNormal(s, t, p);
      c := [Counters.Leave];
      CountedDown(max, Abstract(Shared(s, threads)), Abstract(Shared(t, after)));
    }
  }

  // ---------- one action ----------

  lemma AsCountersUpdate(threads: seq<Thread>, t: nat, x: Thread)
    requires t < |threads|
    ensures AsCounters(threads[t := x]) == AsCounters(threads)[t := AsCounter(x)]
  {
  }

  lemma CheckCounts(cfg: Config, st: Shared, a: Action) returns (c: seq<Counters.Action>)
    requires a.Check? && OrderlyAction(cfg, st, a)
    ensures CountsAs(cfg.maxPlayers, st, Next(cfg, st, a), c)
  {
    if a.thread >= |st.threads| || st.threads[a.thread] != Idle {
      c := [];
    } else if Limited(cfg, st.tables, a.request) {
      c := [Counters.Check(a.thread)];
      Partition(st.tables);
      AsCountersUpdate(st.threads, a.thread, Admitted(a.sid, a.request, a.veto));
    } else {
      c := UnlimitedCounts(cfg, st, a);
    }
  }

  lemma UnlimitedCounts(cfg: Config, st: Shared, a: Action) returns (c: seq<Counters.Action>)
    requires a.Check? && !Limited(cfg, st.tables, a.request)
    requires Assumed(cfg, st.tables, Packet(a.sid, Auth(a.request, a.veto)))
    ensures CountsAs(cfg.maxPlayers, st, st.(tables := HandleAuth(cfg, st.tables, a.sid, a.request, a.veto)), c)
  {
    var s := st.tables;
    if Refusal(cfg, s, a.request) == None {
      BridgeEnters(cfg, s, a.sid, a.request, a.veto);
      c := [Counters.InsertBridge];
    } else {
      RefusalLoses(cfg, s, a.sid, a.request, a.veto);
      c := LostCounts(cfg.maxPlayers, s, HandleAuth(cfg, s, a.sid, a.request, a.veto),
                      if a.sid in s.sessionToPlayer then s.sessionToPlayer[a.sid] else 0, st.threads, st.threads);
    }
  }

  lemma BridgeEnters(cfg: Config, s: Tables, sid: u16, request: AuthRequest, veto: bool)
    requires Refusal(cfg, s, request) == None && request.username == BRIDGE
    requires NextId(s.nextPlayer) !in s.players
    ensures var t := HandleAuth(cfg, s, sid, request, veto);
            |Normal(t)| == |Normal(s)| && |Bridges(t)| == |Bridges(s)| + 1
  {
    var p := NewPlayer(s, request);
    BridgeAdded(s, HandleAuth(cfg, s, sid, request, veto).players, p);
    assert Normal(HandleAuth(cfg, s, sid, request, veto))
           == Normal(s.(players := HandleAuth(cfg, s, sid, request, veto).players));
  }

  lemma BridgeAdded(s: Tables, players: map<u16, Player>, p: Player)
    requires players == s.players[p.id := p] && p.id !in s.players && p.username == BRIDGE
    ensures var t := s.(players := players);
            |Normal(t)| == |Normal(s)| && |Bridges(t)| == |Bridges(s)| + 1
  {
    var t := s.(players := players);
    assert Normal(t) == Normal(s);
    assert Bridges(t) == Bridges(s) + {p.id};
    OneMore(Bridges(s), p.id);
  }

  lemma NormalAdded(s: Tables, t: Tables, p: Player)
    requires t.players == s.players[p.id := p] && p.id !in s.players && p.username != BRIDGE
    ensures |Normal(t)| == |Normal(s)| + 1 && |Bridges(t)| == |Bridges(s)|
  {
    assert Normal(t) == Normal(s) + {p.id};
    OneMore(Normal(s), p.id);
    assert Bridges(t) == Bridges(s);
  }

  lemma InsertCounts(cfg: Config, st: Shared, a: Action) returns (c: seq<Counters.Action>)
    requires a.Insert? && OrderlyAction(cfg, st, a)
    requires forall i :: 0 <= i < |st.threads| && st.threads[i].Admitted? ==>
               st.threads[i].request.Request? && st.threads[i].request.username != BRIDGE
    ensures CountsAs(cfg.maxPlayers, st, Next(cfg, st, a), c)
  {
    c := [];
    var s, t := st.tables, a.thread;
    if t < |st.threads| && st.threads[t].Admitted? {
      var p := NewPlayer(s, st.threads[t].request);
      var u := Next(cfg, st, a);
      NormalAdded(s, u.tables, p);
      AsCountersUpdate(st.threads, t, u.threads[t]);
      c := [Counters.Insert(t)];
    }
  }

  /** Requests that wait for insertion passed the check for players that are no bridges. */
  ghost predicate WaitingAreNormal(threads: seq<Thread>)
  {
    forall i :: 0 <= i < |threads| && threads[i].Admitted? ==>
      threads[i].request.Request? && threads[i].request.username != BRIDGE
  }

  lemma StillNormal(cfg: Config, st: Shared, a: Action)
    requires WaitingAreNormal(st.threads)
    ensures WaitingAreNormal(Next(cfg, st, a).threads)
  {
  }

  lemma SettleCounts(cfg: Config, st: Shared, a: Action) returns (c: seq<Counters.Action>)
    requires a.Settle?
    ensures CountsAs(cfg.maxPlayers, st, Next(cfg, st, a), c)
  {
    c := [];
    var t := a.thread;
    if t < |st.threads| && st.threads[t].Entered? {
      var x := st.threads[t];
      ConcludedLoses(st.tables, x.sid, x.player, x.veto);
      AsCountersUpdate(st.threads, t, Idle);
      assert AsCounters(st.threads)[t := Counters.Idle] == AsCounters(st.threads);
      c := LostCounts(cfg.maxPlayers, st.tables, Concluded(st.tables, x.sid, x.player, x.veto), x.player.id,
                      st.threads, st.threads[t := Idle]);
    }
  }

  lemma OtherCounts(cfg: Config, st: Shared, a: Action) returns (c: seq<Counters.Action>)
    requires a.Other?
    ensures CountsAs(cfg.maxPlayers, st, Next(cfg, st, a), c)
  {
    c := [];
    if !(a.op.Packet? && a.op.control.Auth?) {
      var p := OthersLose(cfg, st.tables, a.op);
      c := LostCounts(cfg.maxPlayers, st.tables, Step(cfg, st.tables, a.op), p, st.threads, st.threads);
    }
  }

  lemma ActionCounts(cfg: Config, st: Shared, a: Action) returns (c: seq<Counters.Action>)
    requires OrderlyAction(cfg, st, a) && WaitingAreNormal(st.threads)
    ensures CountsAs(cfg.maxPlayers, st, Next(cfg, st, a), c)
  {
    match a
    case Check(_, _, _, _) => c := CheckCounts(cfg, st, a);
    case Insert(_) => c := InsertCounts(cfg, st, a);
    case Settle(t) =>
      c := SettleCounts(cfg, st, a);
    case Other(_) => c := OtherCounts(cfg, st, a);
  }

  // ---------- runs ----------

  /** Every orderly run of the server counts like a run of the counters with as many threads. */
  lemma {:induction false} RunCounts(cfg: Config, n: nat, actions: seq<Action>) returns (c: seq<Counters.Action>)
    requires Orderly(cfg, n, actions)
    ensures Abstract(Reached(cfg, n, actions)) == Counters.After(n, cfg.maxPlayers, c)
    ensures WaitingAreNormal(Reached(cfg, n, actions).threads)
    decreases |actions|
  {
    if actions == [] {
      c := [];
      assert AsCounters(AllIdle(n)) == Counters.Initial(n).threads;
      assert Normal(INITIAL) == {} && Bridges(INITIAL) == {};
    } else {
      var before := actions[..|actions| - 1];
      var first := RunCounts(cfg, n, before);
      StillNormal(cfg, Reached(cfg, n, before), actions[|actions| - 1]);
      var last := ActionCounts(cfg, Reached(cfg, n, before), actions[|actions| - 1]);
      if last == [] {
        c := first;
      } else {
        c := first + [last[0]];
        Counters.Extend(n, cfg.maxPlayers, first, last[0]);
      }
    }
  }
}
