/**
 The framing of the control channel: every packet is preceded by its length as
 four little-endian bytes. A byte stream has exactly one reading as a list of
 complete frames followed by bytes that do not yet hold a complete frame;
 `Frames` and `Rest` compute it, `FramesUnique` says there is no other.
 */
module Framing {
  import opened Bytes

  /** A frame as both senders write it: the length cast to 32 bits, then the packet. */
  function Frame(packet: seq<byte>): (s: seq<byte>)
    ensures |s| == 4 + |packet|
  {
    LittleEndian(|packet|, 4) + packet
  }

  function Wire(packets: seq<seq<byte>>): seq<byte>
  {
    if packets == [] then [] else Frame(packets[0]) + Wire(packets[1..])
  }

  /** The length announced by a stream that begins with a length prefix. */
  function FrameLen(s: seq<byte>): nat
    requires |s| >= 4
  {
    FromLittleEndian(s[..4])
  }

  predicate HasFrame(s: seq<byte>)
  {
    |s| >= 4 && |s| >= 4 + FrameLen(s)
  }

  /** The packets of all complete frames at the front of `s`, in order. */
  function Frames(s: seq<byte>): seq<seq<byte>>
    decreases |s|
  {
    if HasFrame(s) then [s[4..4 + FrameLen(s)]] + Frames(s[4 + FrameLen(s)..]) else []
  }

  /** What is left of `s` after its complete frames. */
  function Rest(s: seq<byte>): seq<byte>
    decreases |s|
  {
    if HasFrame(s) then Rest(s[4 + FrameLen(s)..]) else s
  }

  ghost predicate Framable(packets: seq<seq<byte>>)
  {
    forall i :: 0 <= i < |packets| ==> |packets[i]| < 0x1_0000_0000
  }

  lemma FrameHead(packet: seq<byte>, tail: seq<byte>)
    requires |packet| < 0x1_0000_0000
    ensures var s := Frame(packet) + tail;
            HasFrame(s) && FrameLen(s) == |packet|
            && s[4..4 + |packet|] == packet && s[4 + |packet|..] == tail
  {
    var s := Frame(packet) + tail;
    assert s[..4] == LittleEndian(|packet|, 4);
    DecodeEncode(|packet|, 4);
    Ranges();
  }

  /** A stream with a complete frame in front is that frame followed by the rest. */
  lemma FrameSplit(s: seq<byte>)
    requires HasFrame(s)
    ensures var n := FrameLen(s);
            |s[4..4 + n]| == n && Frame(s[4..4 + n]) + s[4 + n..] == s
  {
    var n := FrameLen(s);
    EncodeDecode(s[..4]);
    assert Frame(s[4..4 + n]) == s[..4] + s[4..4 + n];
  }

  /** The computed reading spells out the stream, and leaves no complete frame behind. */
  lemma {:induction false} FramesSound(s: seq<byte>)
    ensures s == Wire(Frames(s)) + Rest(s)
    ensures !HasFrame(Rest(s))
    ensures Framable(Frames(s))
    decreases |s|
  {
    if HasFrame(s) {
      var n := FrameLen(s);
      var p, tail := s[4..4 + n], s[4 + n..];
      FrameSplit(s);
      FramesSound(tail);
      Ranges();
      WireCons(p, Frames(tail));
      assert Framable([p] + Frames(tail)) by { FramableCons(p, Frames(tail)); }
      Associates(Frame(p), Wire(Frames(tail)), Rest(tail));
    }
  }

  lemma WireCons(p: seq<byte>, packets: seq<seq<byte>>)
    ensures Wire([p] + packets) == Frame(p) + Wire(packets)
  {
    assert ([p] + packets)[1..] == packets;
  }

  lemma FramableCons(p: seq<byte>, packets: seq<seq<byte>>)
    requires |p| < 0x1_0000_0000 && Framable(packets)
    ensures Framable([p] + packets)
  {
  }

  /** No other list of packets and left-over bytes spells out the same stream. */
  lemma {:induction false} FramesUnique(packets: seq<seq<byte>>, rest: seq<byte>)
    requires Framable(packets)
    requires !HasFrame(rest)
    ensures Frames(Wire(packets) + rest) == packets
    ensures Rest(Wire(packets) + rest) == rest
  {
    if packets == [] {
      assert Wire(packets) + rest == rest;
    } else {
      var tail := Wire(packets[1..]) + rest;
      FramesUnique(packets[1..], rest);
      assert Wire(packets) + rest == Frame(packets[0]) + tail;
      FrameHead(packets[0], tail);
      assert packets == [packets[0]] + packets[1..];
    }
  }

  lemma {:induction false} WireAppend(a: seq<seq<byte>>, b: seq<seq<byte>>)
    ensures Wire(a + b) == Wire(a) + Wire(b)
  {
    if a == [] {
      assert a + b == b;
    } else {
      WireAppend(a[1..], b);
      assert (a + b)[1..] == a[1..] + b;
      Associates(Frame(a[0]), Wire(a[1..]), Wire(b));
    }
  }

  /** Reading a stream in two parts, keeping the left-over bytes, reads the same packets. */
  lemma FramesAppend(s: seq<byte>, t: seq<byte>)
    ensures Frames(s + t) == Frames(s) + Frames(Rest(s) + t)
    ensures Rest(s + t) == Rest(Rest(s) + t)
  {
    var u := Rest(s) + t;
    FramesSound(s);
    FramesSound(u);
    WireAppend(Frames(s), Frames(u));
    Associates(Wire(Frames(s)), Rest(s), t);
    Associates(Wire(Frames(s)), Wire(Frames(u)), Rest(u));
    FramesUnique(Frames(s) + Frames(u), Rest(u));
  }

  /** A frame byte for byte: four length bytes, lowest first, then the packet. */
  lemma FrameLayout(packet: seq<byte>)
    ensures var s, n := Frame(packet), |packet|;
            && s[0] == n % 0x100 && s[1] == n / 0x100 % 0x100
            && s[2] == n / 0x1_0000 % 0x100 && s[3] == n / 0x100_0000 % 0x100
            && s[4..] == packet
  {
    LittleEndianBytes(|packet|);
  }
}
