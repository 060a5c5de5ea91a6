/** The control side of the server: open sessions and what was sent to them. */
module TcpServer {
  import opened Bytes

  datatype Refusal = InvalidJson | BridgeTokenMismatch | UsernameRequired | WrongPassword | ServerFull | Vetoed

  datatype Message =
    | AuthOk(playerId: u16)
    | AuthError(reason: Refusal)
    | ServerInfo(current: nat)
    | PlayerJoin(playerId: u16)
    | PlayerLeave(playerId: u16)
    | VehicleSpawn(playerId: u16, vehicleId: byte)
    | VehicleDelete(playerId: u16, vehicleId: byte)
    | KickNotice

  datatype Outgoing = Outgoing(sessions: set<u16>, message: Message)

  datatype Tcp = Tcp(sessions: set<u16>, nextSession: u16, sent: seq<Outgoing>)

  /** A 16-bit counter hands out session ids; a wrapped id replaces the session that held it. */
  function Accept(t: Tcp): Tcp
  {
    t.(sessions := t.sessions + {t.nextSession}, nextSession := (t.nextSession + 1) % 0x1_0000)
  }

  function Erase(t: Tcp, sid: u16): Tcp
  {
    t.(sessions := t.sessions - {sid})
  }

  function Send(t: Tcp, sid: u16, m: Message): Tcp
  {
    if sid in t.sessions then t.(sent := t.sent + [Outgoing({sid}, m)]) else t
  }

  /** The default exclusion, 0xFFFF, leaves out a session of that id. */
  function SendAll(t: Tcp, m: Message): Tcp
  {
    t.(sent := t.sent + [Outgoing(t.sessions - {0xFFFF}, m)])
  }

  class TCPServer {
    var sessions: set<u16>
    var nextSession: u16
    var sent: seq<Outgoing>

    constructor ()
      ensures State() == Tcp({}, 1, [])
    {
      sessions, nextSession, sent := {}, 1, [];
    }

    function State(): Tcp
      reads this
    {
      Tcp(sessions, nextSession, sent)
    }

    method AcceptSession() returns (sid: u16)
      modifies this
      ensures sid == old(nextSession) && State() == Accept(old(State()))
    {
      sid := nextSession;
      nextSession := if nextSession == 0xFFFF then 0 else nextSession + 1;
      sessions := sessions + {sid};
    }

    method EraseSession(sid: u16)
      modifies this`sessions
      ensures State() == Erase(old(State()), sid)
    {
      sessions := sessions - {sid};
    }

    method SendTo(sid: u16, m: Message)
      modifies this`sent
      ensures State() == Send(old(State()), sid, m)
    {
      if sid in sessions { sent := sent + [Outgoing({sid}, m)]; }
    }

    /** Walks the open sessions, in no particular order, and skips 0xFFFF. */
    method SendToAll(m: Message)
      modifies this`sent
      ensures State() == SendAll(old(State()), m)
    {
      var reached: set<u16> := {};
      var todo := sessions;
      while todo != {}
        invariant todo <= sessions
        invariant reached == sessions - todo - {0xFFFF}
        decreases todo
      {
        var sid :| sid in todo;
        todo := todo - {sid};
        if sid != 0xFFFF { reached := reached + {sid}; }
      }
      assert reached == sessions - {0xFFFF};
      sent := sent + [Outgoing(reached, m)];
    }
  }
}
