/**
 Which connection holds a session id, and for whom it acts: ids are given again
 after 65536 connections, and a new connection takes over what the id stands for.
 */
module Connections {
  import opened Bytes
  import opened GameServer
  import opened Identifiers
  import opened Lifecycle
  import Tcp = TcpServer

  /** The last connection of a run that was given the id; connections are counted from 0. */
  function Holder(ops: seq<Op>, sid: u16): Option<nat>
  {
    if ops == [] then None
    else
      var before := ops[..|ops| - 1];
      if ops[|ops| - 1].Accept? && SessionId(Accepts(before)) == sid then Some(Accepts(before)) else Holder(before, sid)
  }

  lemma {:induction false} HolderIsLast(ops: seq<Op>, sid: u16)
    ensures match Holder(ops, sid)
            case None => forall j :: 0 <= j < Accepts(ops) ==> SessionId(j) != sid
            case Some(h) =>
              h < Accepts(ops) && SessionId(h) == sid && forall j :: h < j < Accepts(ops) ==> SessionId(j) != sid
  {
    if ops != [] { HolderIsLast(ops[..|ops| - 1], sid); }
  }

  /** Exactly when a connection still holds its id: fewer than 65536 connections were accepted after it. */
  lemma HolderIff(ops: seq<Op>, i: nat)
    requires i < Accepts(ops)
    ensures Holder(ops, SessionId(i)) == Some(i) <==> Accepts(ops) - (i + 1) < 0x1_0000
  {
    HolderIsLast(ops, SessionId(i));
    var h := Holder(ops, SessionId(i)).value;
    SessionIds(i, h);
    SessionClosedForm(i);
    SessionClosedForm(i + 0x1_0000);
  }

  lemma {:induction false} OpenIsHeld(cfg: Config, ops: seq<Op>, sid: u16)
    requires sid in After(cfg, ops).tcp.sessions
    ensures Holder(ops, sid).Some?
  {
    if ops != [] {
      var before, op := ops[..|ops| - 1], ops[|ops| - 1];
      if op.Accept? {
        NextSessionId(cfg, before);
      } else {
        StepOpensNone(cfg, After(cfg, before), op);
      }
      if sid in After(cfg, before).tcp.sessions { OpenIsHeld(cfg, before, sid); }
    }
  }

  // ---------- late closes ----------

  /**
   A late close of connection `i`, closed before, has an effect exactly if the id is
   open again; then it is held by a connection accepted a multiple of 65536 later.
   */
  lemma LateCloseIff(cfg: Config, ops: seq<Op>, more: seq<Op>, i: nat)
    requires Legal(cfg, ops + [Close(SessionId(i))] + more) && i < Accepts(ops)
    ensures var all := ops + [Close(SessionId(i))] + more;
            && (CloseSession(After(cfg, all), SessionId(i)) == After(cfg, all)
                <==> SessionId(i) !in After(cfg, all).tcp.sessions)
            && (SessionId(i) in After(cfg, all).tcp.sessions ==>
                  && Holder(all, SessionId(i)).Some?
                  && Holder(all, SessionId(i)).value >= i + 0x1_0000
                  && (Holder(all, SessionId(i)).value - i) % 0x1_0000 == 0)
  {
    hide Legal, After, SessionId, CloseSession, Accepts, Holder;
    var all := ops + [Close(SessionId(i))] + more;
    CloseIsIdleIff(cfg, all, SessionId(i));
    if SessionId(i) in After(cfg, all).tcp.sessions {
      OpenIsHeld(cfg, all, SessionId(i));
      HolderIsLast(all, SessionId(i));
      if Accepts(all) - (i + 1) < 0x1_0000 {
        LateCloseIsHarmless(cfg, ops, more, i);
        assert false;
      }
      LaterHolder(i, Holder(all, SessionId(i)).value, Accepts(all));
    }
  }

  lemma LaterHolder(i: nat, h: nat, n: nat)
    requires h < n && n - (i + 1) >= 0x1_0000 && SessionId(h) == SessionId(i)
    requires forall j :: h < j < n ==> SessionId(j) != SessionId(i)
    ensures h >= i + 0x1_0000 && (h - i) % 0x1_0000 == 0
  {
    SessionClosedForm(i);
    SessionClosedForm(h);
    SessionClosedForm(i + 0x1_0000);
  }

  // ---------- for whom a session acts ----------

  /** An acceptance: the connection that asked, and the player id it was given. */
  datatype Entry = Entry(connection: nat, player: u16)

  ghost predicate Accepted(cfg: Config, s: Tables, op: Op, sid: u16)
  {
    Admits(cfg, s, op) && op.sid == sid
  }

  /** The last acceptance on a session id. */
  ghost function LastEntry(cfg: Config, ops: seq<Op>, sid: u16): Option<Entry>
  {
    if ops == [] then None
    else
      var before, op := ops[..|ops| - 1], ops[|ops| - 1];
      var s := After(cfg, before);
      if Accepted(cfg, s, op, sid) && Holder(before, sid).Some? then
        Some(Entry(Holder(before, sid).value, NextId(s.nextPlayer)))
      else LastEntry(cfg, before, sid)
  }

  /** The session has a player in `t` only if it had the same one in `s`. */
  ghost predicate SamePlayer(s: Tables, t: Tables, sid: u16)
  {
    sid in t.sessionToPlayer ==> sid in s.sessionToPlayer && t.sessionToPlayer[sid] == s.sessionToPlayer[sid]
  }

  lemma CloseKeepsPlayers(s: Tables, a: u16, sid: u16)
    ensures SamePlayer(s, CloseSession(s, a), sid) && SamePlayer(s, Disconnect(s, a), sid)
  {
  }

  /** What the session table says of one session, after an authentication on any session. */
  lemma AuthEnters(cfg: Config, s: Tables, a: u16, request: AuthRequest, veto: bool, sid: u16)
    requires sid in HandleAuth(cfg, s, a, request, veto).sessionToPlayer
    ensures var t := HandleAuth(cfg, s, a, request, veto);
            if Accepted(cfg, s, Packet(a, Auth(request, veto)), sid) then t.sessionToPlayer[sid] == NextId(s.nextPlayer)
            else SamePlayer(s, t, sid)
  {
    match Refusal(cfg, s, request)
    case Some(reason) =>
      if Closes(reason) { CloseKeepsPlayers(Send(s, a, Tcp.AuthError(reason)), a, sid); }
    case None =>
      if veto && request.username != BRIDGE { VetoResult(cfg, s, a, request); }
  }

  /** Only an acceptance on the session gives it a player. */
  lemma StepEnters(cfg: Config, s: Tables, op: Op, sid: u16)
    requires sid in Step(cfg, s, op).sessionToPlayer
    ensures if Accepted(cfg, s, op, sid) then Step(cfg, s, op).sessionToPlayer[sid] == NextId(s.nextPlayer)
            else SamePlayer(s, Step(cfg, s, op), sid)
  {
    match op
    case Packet(a, control) =>
      if control.Auth? { AuthEnters(cfg, s, a, control.request, control.veto, sid); }
    case Close(a) => CloseKeepsPlayers(s, a, sid);
    case KickPlayer(pid) =>
      forall a ensures SamePlayer(s, KickSession(s, a), sid) { CloseKeepsPlayers(Send(s, a, Tcp.KickNotice), a, sid); }
    case _ =>
  }

  /** The player of a session is the one its last acceptance was given. */
  lemma {:induction false} PlayerOfEntry(cfg: Config, ops: seq<Op>, sid: u16)
    requires Legal(cfg, ops) && sid in After(cfg, ops).sessionToPlayer
    ensures LastEntry(cfg, ops, sid).Some?
    ensures var e := LastEntry(cfg, ops, sid).value;
            && After(cfg, ops).sessionToPlayer[sid] == e.player
            && e.connection < Accepts(ops) && SessionId(e.connection) == sid
  {
    var before, op := ops[..|ops| - 1], ops[|ops| - 1];
    var s := After(cfg, before);
    StepEnters(cfg, s, op, sid);
    if Accepted(cfg, s, op, sid) {
      OpenIsHeld(cfg, before, sid);
      HolderIsLast(before, sid);
    } else {
      PlayerOfEntry(cfg, before, sid);
    }
  }

  /**
   For whom a session acts, after any legal run: for the player of its last
   acceptance. The connection that holds the id is the one that asked for it exactly
   if fewer than 65536 connections were accepted after that one; otherwise a later
   connection acts for a player it never authenticated as.
   */
  lemma ActsForItselfIff(cfg: Config, ops: seq<Op>, sid: u16)
    requires Legal(cfg, ops) && sid in After(cfg, ops).sessionToPlayer
    ensures LastEntry(cfg, ops, sid).Some?
    ensures var e := LastEntry(cfg, ops, sid).value;
            && After(cfg, ops).sessionToPlayer[sid] == e.player
            && (Holder(ops, sid) == Some(e.connection) <==> Accepts(ops) - (e.connection + 1) < 0x1_0000)
  {
    PlayerOfEntry(cfg, ops, sid);
    HolderIff(ops, LastEntry(cfg, ops, sid).value.connection);
  }

  /** A player logs in on connection 0, stays, and `n` more connections are accepted. */
  function TakeoverRun(cfg: Config, n: nat): seq<Op>
  {
    [Accept] + [Login(cfg, 1)] + AcceptMany(n)
  }

  /** With 65536 of them, or a multiple, the last one acts for that player without ever authenticating. */
  lemma LaterConnectionTakesOver(cfg: Config, n: nat)
    requires cfg.maxPlayers >= 1 && n > 0 && n % 0x1_0000 == 0
    ensures var ops := TakeoverRun(cfg, n);
            && Legal(cfg, ops) && After(cfg, ops).sessionToPlayer == map[1 := 1]
            && Holder(ops, 1) == Some(n) && LastEntry(cfg, ops, 1) == Some(Entry(0, 1))
  {
    OneLogin(cfg);
    StillEntered(cfg, [Accept] + [Login(cfg, 1)], n);
  }

  lemma StillEntered(cfg: Config, ops: seq<Op>, n: nat)
    requires Legal(cfg, ops) && Accepts(ops) == 1 && n > 0 && n % 0x1_0000 == 0
    ensures var all := ops + AcceptMany(n);
            && Legal(cfg, all) && After(cfg, all).sessionToPlayer == After(cfg, ops).sessionToPlayer
            && LastEntry(cfg, all, 1) == LastEntry(cfg, ops, 1) && Holder(all, 1) == Some(n)
  {
    ManyMore(cfg, ops, n, 1);
    ManyAccepted(cfg, ops, n);
    NewestHolds(ops + AcceptMany(n), n);
  }

  lemma NewestHolds(ops: seq<Op>, n: nat)
    requires Accepts(ops) == n + 1 && n % 0x1_0000 == 0
    ensures Holder(ops, 1) == Some(n)
  {
    SessionClosedForm(n);
    HolderIff(ops, n);
  }

  lemma OneLogin(cfg: Config)
    requires cfg.maxPlayers >= 1
    ensures var ops := [Accept] + [Login(cfg, 1)];
            && Legal(cfg, ops) && After(cfg, ops).sessionToPlayer == map[1 := 1]
            && Accepts(ops) == 1 && LastEntry(cfg, ops, 1) == Some(Entry(0, 1))
  {
    var one: seq<Op> := [Accept];
    assert [] + one == one && one[..0] == [] && (one + [Login(cfg, 1)])[..1] == one;
    OneMoreStep(cfg, [], Accept);
    OneMoreStep(cfg, one, Login(cfg, 1));
    LoginEnters(cfg, After(cfg, one), 1);
    SessionClosedForm(0);
    assert Accepts(one) == 1 && Holder(one, 1) == Some(0);
    assert |DRIVER| != |BRIDGE|;
  }

  lemma {:induction false} ManyMore(cfg: Config, ops: seq<Op>, n: nat, sid: u16)
    ensures LastEntry(cfg, ops + AcceptMany(n), sid) == LastEntry(cfg, ops, sid)
  {
    if n == 0 {
      assert ops + AcceptMany(n) == ops;
    } else {
      ManyMore(cfg, ops, n - 1, sid);
      assert (ops + AcceptMany(n))[..|ops| + n - 1] == ops + AcceptMany(n - 1);
    }
  }
}
