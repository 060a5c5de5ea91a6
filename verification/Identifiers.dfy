/** The wrapping 16-bit counters behind player ids and session ids. */
module Identifiers {
  import opened Bytes
  import opened GameServer
  import opened Lifecycle
  import Tcp = TcpServer

  // ---------- player ids ----------

  /** The counter after `k` allocations. */
  function Counter(k: nat): u16
  {
    if k == 0 then 1 else NextId(Counter(k - 1)) + 1
  }

  /** The id the k-th allocation hands out, counting from 0. */
  function PlayerId(k: nat): u16
  {
    NextId(Counter(k))
  }

  lemma {:induction false} CounterClosedForm(k: nat)
    ensures PlayerId(k) == 1 + k % 65534
    ensures Counter(k) == if k > 0 && k % 65534 == 0 then 0xFFFF else 1 + k % 65534
  {
    if k > 0 {
      CounterClosedForm(k - 1);
    }
  }

  /** The k-th id is 1 + k mod 65534: never 0 or 0xFFFF, and any 65534 in a row differ. */
  lemma PlayerIds(i: nat, j: nat)
    ensures PlayerId(i) == 1 + i % 65534
    ensures PlayerId(i) != 0 && PlayerId(i) != NO_PLAYER
    ensures i < j < i + 65534 ==> PlayerId(i) != PlayerId(j)
  {
    CounterClosedForm(i);
    CounterClosedForm(j);
  }

  // ---------- session ids ----------

  function Accepted(t: Tcp.Tcp, n: nat): Tcp.Tcp
  {
    if n == 0 then t else Tcp.Accept(Accepted(t, n - 1))
  }

  /** The id the k-th accepted connection gets, counting from 0. */
  function SessionId(k: nat): u16
  {
    Accepted(Tcp.Tcp({}, 1, []), k).nextSession
  }

  lemma {:induction false} AcceptedCounts(t: Tcp.Tcp, n: nat)
    ensures Accepted(t, n).nextSession == (t.nextSession + n) % 0x1_0000
  {
    if n > 0 {
      AcceptedCounts(t, n - 1);
      NextRemainder(t.nextSession + n - 1);
    }
  }

  lemma NextRemainder(n: nat)
    ensures (n % 0x1_0000 + 1) % 0x1_0000 == (n + 1) % 0x1_0000
  {
  }

  lemma SessionClosedForm(k: nat)
    ensures SessionId(k) == (1 + k) % 0x1_0000
  {
    AcceptedCounts(Tcp.Tcp({}, 1, []), k);
  }

  /** Any 65536 sessions accepted in a row have different ids. */
  lemma SessionIds(i: nat, j: nat)
    ensures SessionId(i) == (1 + i) % 0x1_0000
    ensures i < j < i + 0x1_0000 ==> SessionId(i) != SessionId(j)
  {
    SessionClosedForm(i);
    SessionClosedForm(j);
  }

  // ---------- late closes ----------

  /** How many connections a run accepts. */
  function Accepts(ops: seq<Op>): nat
  {
    if ops == [] then 0 else Accepts(ops[..|ops| - 1]) + if ops[|ops| - 1].Accept? then 1 else 0
  }

  lemma {:induction false} AcceptsAppend(a: seq<Op>, b: seq<Op>)
    ensures Accepts(a + b) == Accepts(a) + Accepts(b)
  {
    if b == [] {
      assert a + b == a;
    } else {
      AcceptsAppend(a, b[..|b| - 1]);
      assert (a + b)[..|a + b| - 1] == a + b[..|b| - 1];
    }
  }

  lemma StepCounts(cfg: Config, s: Tables, op: Op)
    ensures Step(cfg, s, op).tcp.nextSession == NextSession(op, s.tcp.nextSession)
  {
    if !op.Accept? { StepOpensNone(cfg, s, op); }
  }

  function NextSession(op: Op, sid: u16): u16
  {
    if op.Accept? then (sid + 1) % 0x1_0000 else sid
  }

  /** The id a run would give to its next connection depends on how many it accepted, and on nothing else. */
  lemma {:induction false} NextSessionId(cfg: Config, ops: seq<Op>)
    ensures After(cfg, ops).tcp.nextSession == SessionId(Accepts(ops))
  {
    if ops != [] {
      var before, op := ops[..|ops| - 1], ops[|ops| - 1];
      NextSessionId(cfg, before);
      assert ops == before + [op];
      OneMoreNext(cfg, before, op);
      OneMoreSession(Accepts(before), op);
    }
  }

  lemma OneMoreNext(cfg: Config, ops: seq<Op>, op: Op)
    ensures After(cfg, ops + [op]).tcp.nextSession == NextSession(op, After(cfg, ops).tcp.nextSession)
    ensures Accepts(ops + [op]) == Accepts(ops) + if op.Accept? then 1 else 0
  {
    OneMoreStep(cfg, ops, op);
    StepCounts(cfg, After(cfg, ops), op);
    assert (ops + [op])[..|ops|] == ops;
  }

  lemma OneMoreSession(k: nat, op: Op)
    ensures NextSession(op, SessionId(k)) == SessionId(k + if op.Accept? then 1 else 0)
  {
  }

  /**
   A late close is harmless: after any legal run in which the session of
   connection `i` was closed, and fewer than 65536 connections were accepted since
   connection `i`, closing it once more changes nothing at all.
   */
  lemma LateCloseIsHarmless(cfg: Config, ops: seq<Op>, more: seq<Op>, i: nat)
    requires Legal(cfg, ops + [Close(SessionId(i))] + more)
    requires i < Accepts(ops)
    requires Accepts(ops + [Close(SessionId(i))] + more) - (i + 1) < 0x1_0000
    ensures var s := After(cfg, ops + [Close(SessionId(i))] + more);
            CloseSession(s, SessionId(i)) == s
  {
    var sid := SessionId(i);
    var closed := ops + [Close(sid)];
    assert closed[..|ops|] == ops;
    AcceptsAppend(closed, more);
    assert NotReused(cfg, closed, more, sid) by {
      forall k | 0 <= k < |more| && more[k].Accept? ensures After(cfg, closed + more[..k]).tcp.nextSession != sid {
        AcceptsAppend(closed, more[..k]);
        MoreAccepts(more, k);
        NextSessionId(cfg, closed + more[..k]);
        SessionIds(i, Accepts(closed + more[..k]));
      }
    }
    CloseAgain(cfg, closed, more, sid);
  }

  /** An accept at `k` comes on top of those before it. */
  lemma {:induction false} MoreAccepts(ops: seq<Op>, k: nat)
    requires k < |ops| && ops[k].Accept?
    ensures Accepts(ops[..k]) < Accepts(ops)
  {
    if k < |ops| - 1 {
      MoreAccepts(ops[..|ops| - 1], k);
      assert ops[..|ops| - 1][..k] == ops[..k];
    }
  }

  /** With 65536 accepts in between it throws out the player who holds the id now. */
  lemma LateCloseAfterWrap(s: Tables, i: nat)
    requires SessionId(i + 0x1_0000) in s.sessionToPlayer
    requires s.sessionToPlayer[SessionId(i + 0x1_0000)] != NO_PLAYER
    ensures SessionId(i) == SessionId(i + 0x1_0000)
    ensures var pid := s.sessionToPlayer[SessionId(i + 0x1_0000)];
            pid !in CloseSession(s, SessionId(i)).players
  {
    SessionClosedForm(i);
    SessionClosedForm(i + 0x1_0000);
  }

  function AcceptMany(n: nat): (ops: seq<Op>)
    ensures |ops| == n
  {
    if n == 0 then [] else AcceptMany(n - 1) + [Accept]
  }

  /** Accepts alone are legal, change no table but the sessions, and leave the newest session open. */
  lemma {:induction false} ManyAccepted(cfg: Config, ops: seq<Op>, n: nat)
    requires Legal(cfg, ops)
    ensures Legal(cfg, ops + AcceptMany(n)) && Accepts(ops + AcceptMany(n)) == Accepts(ops) + n
    ensures var s, t := After(cfg, ops), After(cfg, ops + AcceptMany(n));
            t == s.(tcp := t.tcp) && (n > 0 ==> SessionId(Accepts(ops) + n - 1) in t.tcp.sessions)
  {
    if n == 0 {
      assert ops + AcceptMany(n) == ops;
    } else {
      var front := ops + AcceptMany(n - 1);
      Associates(ops, AcceptMany(n - 1), [Accept]);
      ManyAccepted(cfg, ops, n - 1);
      NextSessionId(cfg, front);
      OneMoreStep(cfg, front, Accept);
      AcceptsAppend(front, [Accept]);
    }
  }

  const FIRST: seq<Op> := [Accept, Close(1)]

  /** The first connection closes, `n` more are accepted, and the last of them, on session 1, gets a player. */
  function WrappingRun(cfg: Config, n: nat): seq<Op>
  {
    FIRST + AcceptMany(n) + [Login(cfg, 1)]
  }

  /**
   With 65536 accepts, or a multiple, this run is legal on every server that
   admits anyone, and closing the session of connection 0 again ends the player.
   */
  lemma LateCloseHarms(cfg: Config, n: nat)
    requires cfg.maxPlayers >= 1 && n > 0 && n % 0x1_0000 == 0
    ensures SessionId(0) == SessionId(n) == 1
    ensures var s := After(cfg, WrappingRun(cfg, n));
            && Legal(cfg, WrappingRun(cfg, n))
            && s.sessionToPlayer == map[1 := 1] && s.players.Keys == {1}
            && CloseSession(s, SessionId(0)).players == map[]
  {
    Wrapped(cfg, n);
    LoginEnters(cfg, After(cfg, FIRST + AcceptMany(n)), 1);
    OneMoreStep(cfg, FIRST + AcceptMany(n), Login(cfg, 1));
  }

  lemma Wrapped(cfg: Config, n: nat)
    requires n > 0 && n % 0x1_0000 == 0
    ensures SessionId(0) == SessionId(n) == 1 && Legal(cfg, FIRST + AcceptMany(n))
    ensures var s := After(cfg, FIRST + AcceptMany(n)); s == INITIAL.(tcp := s.tcp) && 1 in s.tcp.sessions
  {
    OneAgain(n);
    FirstClosed(cfg);
    NewestIsOpen(cfg, FIRST, n);
  }

  lemma OneAgain(n: nat)
    requires n % 0x1_0000 == 0
    ensures SessionId(0) == SessionId(n) == 1
  {
    SessionClosedForm(0);
    SessionClosedForm(n);
  }

  lemma NewestIsOpen(cfg: Config, ops: seq<Op>, n: nat)
    requires Legal(cfg, ops) && Accepts(ops) == 1 && n > 0
    ensures Legal(cfg, ops + AcceptMany(n)) && SessionId(n) in After(cfg, ops + AcceptMany(n)).tcp.sessions
    ensures After(cfg, ops + AcceptMany(n)) == After(cfg, ops).(tcp := After(cfg, ops + AcceptMany(n)).tcp)
  {
    ManyAccepted(cfg, ops, n);
  }

  lemma FirstClosed(cfg: Config)
    ensures Legal(cfg, FIRST) && Accepts(FIRST) == 1
    ensures After(cfg, FIRST) == INITIAL.(tcp := After(cfg, FIRST).tcp)
  {
    var one: seq<Op> := [Accept];
    assert FIRST[..1] == one && one[..0] == [];
    assert Legal(cfg, one) && Accepts(one) == 1;
    assert After(cfg, one) == INITIAL.(tcp := Tcp.Accept(INITIAL.tcp));
  }
}
