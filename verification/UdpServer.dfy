/** The datagram side of the server: who is reached at which endpoint. */
module UdpServer {
  import opened Bytes
  import opened VehicleSync

  datatype Endpoint = Endpoint(ip: string, port: u16)

  const NO_PLAYER: u16 := 0xFFFF

  /** What left the socket: an answer, a raw relay, or a packet of the vehicle table. */
  datatype Datagram =
    | Reply(to: Endpoint, kind: byte, sequence: u32)
    | Relay(data: seq<byte>, exclude: u16, recipients: map<u16, Endpoint>)
    | Sync(packet: Emission, recipients: map<u16, Endpoint>)

  datatype Udp = Udp(toEp: map<u16, Endpoint>, toPlayer: map<Endpoint, u16>, sent: seq<Datagram>)

  function MapPlayer(u: Udp, pid: u16, ep: Endpoint): Udp
  {
    u.(toEp := u.toEp[pid := ep], toPlayer := u.toPlayer[ep := pid])
  }

  function UnmapPlayer(u: Udp, pid: u16): Udp
  {
    if pid in u.toEp then u.(toPlayer := u.toPlayer - {u.toEp[pid]}, toEp := u.toEp - {pid}) else u
  }

  function PlayerFromEndpoint(u: Udp, ep: Endpoint): u16
  {
    if ep in u.toPlayer then u.toPlayer[ep] else NO_PLAYER
  }

  /** Everyone mapped, except one player. */
  function Recipients(u: Udp, exclude: u16): map<u16, Endpoint>
  {
    map pid | pid in u.toEp && pid != exclude :: u.toEp[pid]
  }

  /** The packets of one tick, each addressed to everyone but its owner. */
  function SendSync(u: Udp, ms: seq<Emission>): Udp
    decreases |ms|
  {
    if ms == [] then u
    else SendSync(u.(sent := u.sent + [Sync(ms[0], Recipients(u, ms[0].exclude))]), ms[1..])
  }

  /** The two maps are inverse to each other. */
  ghost predicate Inverse(u: Udp)
  {
    && (forall pid :: pid in u.toEp ==> u.toEp[pid] in u.toPlayer && u.toPlayer[u.toEp[pid]] == pid)
    && (forall ep :: ep in u.toPlayer ==> u.toPlayer[ep] in u.toEp && u.toEp[u.toPlayer[ep]] == ep)
  }

  /**
   Mapping a player keeps the maps inverse exactly when neither side is already
   mapped to something else; a remap leaves a stale entry behind.
   */
  lemma MapPlayerKeepsInverseIff(u: Udp, pid: u16, ep: Endpoint)
    requires Inverse(u)
    ensures Inverse(MapPlayer(u, pid, ep))
            <==> (pid in u.toEp ==> u.toEp[pid] == ep) && (ep in u.toPlayer ==> u.toPlayer[ep] == pid)
  {
    var v := MapPlayer(u, pid, ep);
    if pid in u.toEp && u.toEp[pid] != ep {
      assert u.toEp[pid] in v.toPlayer && v.toPlayer[u.toEp[pid]] == pid;
    }
    if ep in u.toPlayer && u.toPlayer[ep] != pid {
      assert u.toPlayer[ep] in v.toEp && v.toEp[u.toPlayer[ep]] == ep;
    }
  }

  /** After unmapping, the player is in neither map, and no one else is touched. */
  lemma UnmapPlayerForgets(u: Udp, pid: u16)
    requires Inverse(u)
    ensures var v := UnmapPlayer(u, pid);
            && Inverse(v)
            && v.toEp == u.toEp - {pid}
            && v.toPlayer == map ep | ep in u.toPlayer && u.toPlayer[ep] != pid :: u.toPlayer[ep]
  {
  }

  class UDPServer {
    var toEp: map<u16, Endpoint>
    var toPlayer: map<Endpoint, u16>
    var sent: seq<Datagram>

    constructor ()
      ensures State() == Udp(map[], map[], [])
    {
      toEp, toPlayer, sent := map[], map[], [];
    }

    function State(): Udp
      reads this
    {
      Udp(toEp, toPlayer, sent)
    }

    method Map(pid: u16, ep: Endpoint)
      modifies this`toEp, this`toPlayer
      ensures State() == MapPlayer(old(State()), pid, ep)
    {
      toEp := toEp[pid := ep];
      toPlayer := toPlayer[ep := pid];
    }

    method Unmap(pid: u16)
      modifies this`toEp, this`toPlayer
      ensures State() == UnmapPlayer(old(State()), pid)
    {
      if pid in toEp {
        toPlayer := toPlayer - {toEp[pid]};
        toEp := toEp - {pid};
      }
    }

    /** Walks the mapped players, in no particular order, and skips one. */
    method Collect(exclude: u16) returns (recipients: map<u16, Endpoint>)
      ensures recipients == Recipients(State(), exclude)
    {
      recipients := map[];
      var todo := toEp.Keys;
      while todo != {}
        invariant todo <= toEp.Keys
        invariant recipients == map pid | pid in toEp && pid != exclude && pid !in todo :: toEp[pid]
        decreases todo
      {
        var pid :| pid in todo;
        todo := todo - {pid};
        if pid != exclude {
          recipients := recipients[pid := toEp[pid]];
        }
      }
    }

    method SendAllSync(ms: seq<Emission>)
      modifies this`sent
      ensures State() == SendSync(old(State()), ms)
    {
      for i := 0 to |ms|
        invariant SendSync(State(), ms[i..]) == SendSync(old(State()), ms)
      {
        var recipients := Collect(ms[i].exclude);
        assert ms[i..][1..] == ms[i + 1..];
        sent := sent + [Sync(ms[i], recipients)];
      }
    }

    method SendAllRaw(data: seq<byte>, exclude: u16)
      modifies this`sent
      ensures State() == old(State()).(sent := old(sent) + [Relay(data, exclude, Recipients(old(State()), exclude))])
    {
      var recipients := Collect(exclude);
      sent := sent + [Relay(data, exclude, recipients)];
    }

    /** A packet without payload to one endpoint. */
    method Answer(to: Endpoint, kind: byte, sequence: u32)
      modifies this`sent
      ensures State() == old(State()).(sent := old(sent) + [Reply(to, kind, sequence)])
    {
      sent := sent + [Reply(to, kind, sequence)];
    }
  }
}
