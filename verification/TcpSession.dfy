/**
 The two-state reader of the native server and client: read four length bytes,
 then that many payload bytes, and start over. A length of zero or above 4 MiB
 closes the connection.
 */
module TcpSession {
  import opened Bytes
  import opened Framing

  const MAX_FRAME: nat := 4 * 1024 * 1024

  predicate BadLength(n: nat)
  {
    n == 0 || n > MAX_FRAME
  }

  datatype Phase = ReadLen | ReadPayload(size: nat)

  /** `inbox` holds received bytes that no completed read has consumed yet. */
  datatype Reader = Reader(phase: Phase, inbox: seq<byte>, delivered: seq<seq<byte>>, closed: bool)

  const START := Reader(ReadLen, [], [], false)

  function Close(r: Reader): Reader
  {
    r.(phase := ReadLen, inbox := [], closed := true)
  }

  /** Completes pending reads as long as enough bytes are there. */
  function Drain(r: Reader): Reader
    decreases |r.inbox|, if r.phase.ReadPayload? then 1 else 0
  {
    if r.closed then r
    else match r.phase
      case ReadLen =>
        if |r.inbox| < 4 then r
        else
          var size := FrameLen(r.inbox);
          if BadLength(size) then Close(r)
          else Drain(r.(phase := ReadPayload(size), inbox := r.inbox[4..]))
      case ReadPayload(size) =>
        if |r.inbox| < size then r
        else Drain(Reader(ReadLen, r.inbox[size..], r.delivered + [r.inbox[..size]], false))
  }

  function Receive(r: Reader, chunk: seq<byte>): Reader
  {
    if r.closed then r else Drain(r.(inbox := r.inbox + chunk))
  }

  function ReceiveAll(r: Reader, chunks: seq<seq<byte>>): Reader
    decreases |chunks|
  {
    if chunks == [] then r else ReceiveAll(Receive(r, chunks[0]), chunks[1..])
  }

  // ---------- the reader described by the frames of the stream ----------

  /** The frames before the first one of a refused length. */
  function Accepted(frames: seq<seq<byte>>): seq<seq<byte>>
  {
    if frames == [] || BadLength(|frames[0]|) then [] else [frames[0]] + Accepted(frames[1..])
  }

  predicate AllAccepted(frames: seq<seq<byte>>)
  {
    forall i :: 0 <= i < |frames| ==> !BadLength(|frames[i]|)
  }

  /** A stream refuses to go on once a refused length has arrived, its payload or not. */
  predicate Refused(s: seq<byte>)
  {
    !AllAccepted(Frames(s)) || (|Rest(s)| >= 4 && BadLength(FrameLen(Rest(s))))
  }

  /** Where the reader stands after the stream `s`, told by its frames alone. */
  function Standing(s: seq<byte>): Reader
  {
    var rest := Rest(s);
    if Refused(s) then Reader(ReadLen, [], Accepted(Frames(s)), true)
    else if |rest| >= 4 then Reader(ReadPayload(FrameLen(rest)), rest[4..], Frames(s), false)
    else Reader(ReadLen, rest, Frames(s), false)
  }

  lemma {:induction false} AcceptedAppend(a: seq<seq<byte>>, b: seq<seq<byte>>)
    ensures Accepted(a + b) == if AllAccepted(a) then a + Accepted(b) else Accepted(a)
  {
    if a == [] {
      assert a + b == b;
    } else {
      AcceptedAppend(a[1..], b);
      assert (a + b)[1..] == a[1..] + b;
      assert a == [a[0]] + a[1..];
      AllAcceptedCons(a[0], a[1..]);
      Associates([a[0]], a[1..], Accepted(b));
    }
  }

  lemma AllAcceptedCons(packet: seq<byte>, packets: seq<seq<byte>>)
    ensures AllAccepted([packet] + packets) <==> !BadLength(|packet|) && AllAccepted(packets)
  {
    var all := [packet] + packets;
    if AllAccepted(all) {
      assert all[0] == packet;
      forall i | 0 <= i < |packets| ensures !BadLength(|packets[i]|) { assert packets[i] == all[i + 1]; }
    }
  }

  /** Draining the bytes of one stream from the start leads to where its frames say. */
  lemma {:induction false} DrainStands(s: seq<byte>, delivered: seq<seq<byte>>)
    ensures var r := Drain(Reader(ReadLen, s, delivered, false));
            r == Standing(s).(delivered := delivered + Standing(s).delivered)
    decreases |s|
  {
    if |s| >= 4 && BadLength(FrameLen(s)) {
      RefusedHead(s, []);
      assert s + [] == s;
    } else if HasFrame(s) {
      var size := FrameLen(s);
      var packet, tail := s[4..4 + size], s[4 + size..];
      assert s[4..][..size] == packet && s[4..][size..] == tail;
      DrainStands(tail, delivered + [packet]);
      StandingCons(s, packet, tail);
      Associates(delivered, [packet], Standing(tail).delivered);
    }
  }

  lemma StandingCons(s: seq<byte>, packet: seq<byte>, tail: seq<byte>)
    requires Frames(s) == [packet] + Frames(tail) && Rest(s) == Rest(tail)
    requires !BadLength(|packet|)
    ensures Standing(s) == Standing(tail).(delivered := [packet] + Standing(tail).delivered)
  {
    AllAcceptedCons(packet, Frames(tail));
    AcceptedAppend([packet], Frames(tail));
    AllAcceptedCons(packet, []);
    assert [packet] == [packet] + [];
  }

  /** An open reader goes on from its left-over bytes as a fresh one would. */
  lemma StandingAppend(s: seq<byte>, t: seq<byte>)
    ensures !Refused(s) ==>
      Standing(s + t) == Standing(Rest(s) + t).(delivered := Frames(s) + Standing(Rest(s) + t).delivered)
    ensures Refused(s) ==> Standing(s + t) == Standing(s)
  {
    var u := Rest(s) + t;
    var f, g := Frames(s), Frames(u);
    FramesAppend(s, t);
    AcceptedAppend(f, g);
    AllAcceptedAppend(f, g);
    AcceptedAppend(f, []);
    assert f + [] == f;
    if Refused(s) && AllAccepted(f) {
      RefusedHead(Rest(s), t);
    }
  }

  /** A refused length at the head of the stream accepts nothing, now or later. */
  lemma RefusedHead(rest: seq<byte>, t: seq<byte>)
    requires |rest| >= 4 && BadLength(FrameLen(rest))
    ensures Refused(rest + t) && Accepted(Frames(rest + t)) == []
  {
    var u := rest + t;
    assert u[..4] == rest[..4];
    if HasFrame(u) {
      assert |Frames(u)[0]| == FrameLen(u);
    }
  }

  lemma AllAcceptedAppend(a: seq<seq<byte>>, b: seq<seq<byte>>)
    ensures AllAccepted(a + b) <==> AllAccepted(a) && AllAccepted(b)
  {
    if AllAccepted(a + b) {
      forall i | 0 <= i < |a| ensures !BadLength(|a[i]|) { assert a[i] == (a + b)[i]; }
      forall i | 0 <= i < |b| ensures !BadLength(|b[i]|) { assert b[i] == (a + b)[|a| + i]; }
    }
  }

  lemma ReceiveStands(s: seq<byte>, chunk: seq<byte>)
    ensures Receive(Standing(s), chunk) == Standing(s + chunk)
  {
    StandingAppend(s, chunk);
    if !Refused(s) {
      var rest := Rest(s);
      FramesSound(s);
      DrainStands(rest + chunk, Frames(s));
      if |rest| >= 4 {
        assert (rest + chunk)[..4] == rest[..4];
        assert (rest + chunk)[4..] == rest[4..] + chunk;
      }
    }
  }

  /**
   Chunking independence of the two-state reader: however the stream is cut, the
   reader ends where the frames of the whole stream say.
   */
  lemma ReceivingIsOnePass(chunks: seq<seq<byte>>)
    ensures ReceiveAll(START, chunks) == Standing(Flatten(chunks))
  {
    ReceiveAllStands([], chunks);
    assert [] + Flatten(chunks) == Flatten(chunks);
  }

  lemma {:induction false} ReceiveAllStands(s: seq<byte>, chunks: seq<seq<byte>>)
    ensures ReceiveAll(Standing(s), chunks) == Standing(s + Flatten(chunks))
    decreases |chunks|
  {
    if chunks == [] {
      assert s + [] == s;
    } else {
      ReceiveStands(s, chunks[0]);
      ReceiveAllStands(s + chunks[0], chunks[1..]);
      Associates(s, chunks[0], Flatten(chunks[1..]));
    }
  }

  class Session {
    var phase: Phase
    var inbox: seq<byte>
    var delivered: seq<seq<byte>>
    var closed: bool

    constructor ()
      ensures State() == START
    {
      phase, inbox, delivered, closed := ReadLen, [], [], false;
    }

    function State(): Reader
      reads this
    {
      Reader(phase, inbox, delivered, closed)
    }

    method OnBytes(chunk: seq<byte>)
      modifies this
      ensures State() == Receive(old(State()), chunk)
    {
      if closed { return; }
      inbox := inbox + chunk;
      ghost var start := State();
      while !closed && |inbox| >= if phase.ReadLen? then 4 else phase.size
        invariant Drain(State()) == Drain(start)
        decreases !closed, |inbox|, if phase.ReadPayload? then 1 else 0
      {
        match phase
        case ReadLen =>
          var size := FromLittleEndian(inbox[..4]);
          if size == 0 || size > 4 * 1024 * 1024 {
            phase, inbox, closed := ReadLen, [], true;
          } else {
            phase, inbox := ReadPayload(size), inbox[4..];
          }
        case ReadPayload(size) =>
          delivered := delivered + [inbox[..size]];
          phase, inbox := ReadLen, inbox[size..];
      }
    }
  }

  /** The first length, with no more than its payload behind it, closes the reader exactly if it is 0 or above 4 MiB. */
  lemma FirstLengthIff(n: nat, payload: seq<byte>)
    requires n < 0x1_0000_0000 && |payload| <= n
    ensures ReceiveAll(START, [LittleEndian(n, 4) + payload]).closed <==> n == 0 || n > 4_194_304
  {
    var s := LittleEndian(n, 4) + payload;
    ReceivingIsOnePass([s]);
    assert Flatten([s]) == s + Flatten<byte>([]) == s;
    Ranges();
    DecodeEncode(n, 4);
    assert s[..4] == LittleEndian(n, 4) && FrameLen(s) == n;
    if |payload| == n {
      assert s[4..4 + n] == payload && s[4 + n..] == [];
      assert Frames(s) == [payload] + Frames([]) && Frames([]) == [] && Rest(s) == Rest([]) == [];
      AllAcceptedCons(payload, []);
    } else {
      assert !HasFrame(s) && Frames(s) == [] && Rest(s) == s;
    }
  }
}
