/** The binary packets of both channels: packed records written byte for byte. */
module Packet {
  import opened Bytes

  // ---------- packed records ----------

  /** The bytes of a packed record, field after field, each in little-endian order. */
  function Pack(values: seq<nat>, widths: seq<nat>): seq<byte>
    requires |values| == |widths|
  {
    if values == [] then []
    else LittleEndian(values[0], widths[0]) + Pack(values[1..], widths[1..])
  }

  function Width(widths: seq<nat>): nat
  {
    if widths == [] then 0 else widths[0] + Width(widths[1..])
  }

  function Unpack(s: seq<byte>, widths: seq<nat>): (values: seq<nat>)
    requires |s| == Width(widths)
    ensures |values| == |widths|
    decreases |s|, widths
  {
    if widths == [] then []
    else [FromLittleEndian(s[..widths[0]])] + Unpack(s[widths[0]..], widths[1..])
  }

  ghost predicate Fits(values: seq<nat>, widths: seq<nat>)
  {
    && |values| == |widths|
    && forall i :: 0 <= i < |values| ==> values[i] < Range(widths[i])
  }

  lemma {:induction false} PackWidth(values: seq<nat>, widths: seq<nat>)
    requires |values| == |widths|
    ensures |Pack(values, widths)| == Width(widths)
  {
    if values != [] { PackWidth(values[1..], widths[1..]); }
  }

  /** A record of values that fit their fields is read back unchanged. */
  lemma {:induction false} UnpackPack(values: seq<nat>, widths: seq<nat>)
    requires Fits(values, widths)
    ensures |Pack(values, widths)| == Width(widths)
    ensures Unpack(Pack(values, widths), widths) == values
  {
    PackWidth(values, widths);
    if values != [] {
      var s := Pack(values, widths);
      assert s[..widths[0]] == LittleEndian(values[0], widths[0]);
      assert s[widths[0]..] == Pack(values[1..], widths[1..]);
      DecodeEncode(values[0], widths[0]);
      assert Fits(values[1..], widths[1..]) by {
        forall i | 0 <= i < |values| - 1 ensures values[1..][i] < Range(widths[1..][i]) {
          assert values[i + 1] < Range(widths[i + 1]);
        }
      }
      UnpackPack(values[1..], widths[1..]);
    }
  }

  /** Every byte string of the right size is the record of the values read from it. */
  lemma {:induction false} PackUnpack(s: seq<byte>, widths: seq<nat>)
    requires |s| == Width(widths)
    ensures Fits(Unpack(s, widths), widths)
    ensures Pack(Unpack(s, widths), widths) == s
    decreases widths
  {
    if widths != [] {
      var low, high := s[..widths[0]], s[widths[0]..];
      EncodeDecode(low);
      PackUnpack(high, widths[1..]);
      var v := Unpack(s, widths);
      assert v[1..] == Unpack(high, widths[1..]);
      assert s == low + high;
      forall i | 0 <= i < |v| ensures v[i] < Range(widths[i]) {
        if i > 0 { assert v[1..][i - 1] < Range(widths[1..][i - 1]); }
      }
    }
  }

  // ---------- the header ----------

  const HEADER_SIZE: nat := 10
  const HEADER_WIDTHS: seq<nat> := [1, 2, 4, 2, 1]

  const VEHICLE_UPDATE: byte := 0x08

  datatype Header = Header(kind: byte, sender: u16, sequence: u32, payloadLen: u16, flags: byte)

  function HeaderFields(h: Header): (values: seq<nat>)
    ensures Fits(values, HEADER_WIDTHS)
  {
    Ranges();
    [h.kind, h.sender, h.sequence, h.payloadLen, h.flags]
  }

  function EncodeHeader(h: Header): (s: seq<byte>)
    ensures |s| == HEADER_SIZE
  {
    PackWidth(HeaderFields(h), HEADER_WIDTHS);
    Pack(HeaderFields(h), HEADER_WIDTHS)
  }

  /** Dropping the first fields of a record leaves the record of the others. */
  lemma {:induction false} PackFrom(values: seq<nat>, widths: seq<nat>, k: nat)
    requires |values| == |widths| && k <= |widths|
    ensures Width(widths[k..]) <= Width(widths) == |Pack(values, widths)|
    ensures Pack(values, widths)[Width(widths) - Width(widths[k..])..] == Pack(values[k..], widths[k..])
    decreases k
  {
    PackWidth(values, widths);
    if k == 0 {
      assert widths[0..] == widths && values[0..] == values;
    } else {
      PackFrom(values[1..], widths[1..], k - 1);
      assert widths[1..][k - 1..] == widths[k..] && values[1..][k - 1..] == values[k..];
      var s, tail := Pack(values, widths), Pack(values[1..], widths[1..]);
      assert s[widths[0]..] == tail;
      assert s[widths[0]..][Width(widths[1..]) - Width(widths[k..])..] == s[Width(widths) - Width(widths[k..])..];
    }
  }

  /** Where a field of a record lies. */
  lemma FieldAt(values: seq<nat>, widths: seq<nat>, k: nat)
    requires |values| == |widths| && k < |widths|
    ensures var at := Width(widths) - Width(widths[k..]);
            && 0 <= at && at + widths[k] <= |Pack(values, widths)|
            && Pack(values, widths)[at..at + widths[k]] == LittleEndian(values[k], widths[k])
  {
    PackFrom(values, widths, k);
    PackWidth(values[k..], widths[k..]);
    var at, tail := Width(widths) - Width(widths[k..]), Pack(values[k..], widths[k..]);
    assert tail[..widths[k]] == LittleEndian(values[k], widths[k]);
    assert Pack(values, widths)[at..][..widths[k]] == Pack(values, widths)[at..at + widths[k]];
  }

  /** The header byte for byte: kind, sender, sequence, payload length, flags. */
  lemma HeaderLayout(h: Header)
    ensures EncodeHeader(h) == [h.kind] + LittleEndian(h.sender, 2) + LittleEndian(h.sequence, 4)
                               + LittleEndian(h.payloadLen, 2) + [h.flags]
  {
    var f, w := HeaderFields(h), HEADER_WIDTHS;
    var f1, w1 := f[1..], w[1..];
    var f2, w2 := f1[1..], w1[1..];
    var f3, w3 := f2[1..], w2[1..];
    var f4, w4 := f3[1..], w3[1..];
    assert Pack(f, w) == LittleEndian(f[0], 1) + Pack(f1, w1);
    assert Pack(f1, w1) == LittleEndian(h.sender, 2) + Pack(f2, w2);
    assert Pack(f2, w2) == LittleEndian(h.sequence, 4) + Pack(f3, w3);
    assert Pack(f3, w3) == LittleEndian(h.payloadLen, 2) + Pack(f4, w4);
    assert Pack(f4, w4) == LittleEndian(f4[0], 1) + Pack(f4[1..], w4[1..]);
    OneByte(h.kind);
    OneByte(h.flags);
  }

  lemma OneByte(n: byte)
    ensures LittleEndian(n, 1) == [n]
  {
    assert LittleEndian(n, 1) == [n % 0x100] + LittleEndian(n / 0x100, 0);
  }

  /** `None` stands for the exception raised on a packet shorter than a header. */
  function ParseHeader(data: seq<byte>): (h: Option<Header>)
    ensures h.None? <==> |data| < HEADER_SIZE
  {
    if |data| < HEADER_SIZE then None
    else
      var v := Unpack(data[..HEADER_SIZE], HEADER_WIDTHS);
      PackUnpack(data[..HEADER_SIZE], HEADER_WIDTHS);
      Ranges();
      assert v[0] < Range(HEADER_WIDTHS[0]) && v[1] < Range(HEADER_WIDTHS[1]) && v[2] < Range(HEADER_WIDTHS[2]);
      assert v[3] < Range(HEADER_WIDTHS[3]) && v[4] < Range(HEADER_WIDTHS[4]);
      Some(Header(v[0], v[1], v[2], v[3], v[4]))
  }

  /** A packet: header, then the payload, whose length the header repeats. */
  function EncodePacket(kind: byte, sender: u16, sequence: u32, payload: seq<byte>, flags: byte): (s: seq<byte>)
    requires |payload| < 0x1_0000
    ensures |s| == HEADER_SIZE + |payload|
  {
    EncodeHeader(Header(kind, sender, sequence, |payload|, flags)) + payload
  }

  /** The payload the header of `data` announces, as far as `data` reaches. */
  function Payload(data: seq<byte>): seq<byte>
  {
    match ParseHeader(data)
    case None => []
    case Some(h) =>
      var end := HEADER_SIZE + h.payloadLen;
      data[HEADER_SIZE..if end <= |data| then end else |data|]
  }

  method Build(kind: byte, sender: u16, sequence: u32, payload: seq<byte>, flags: byte) returns (buf: array<byte>)
    requires |payload| < 0x1_0000
    ensures fresh(buf)
    ensures buf[..] == EncodePacket(kind, sender, sequence, payload, flags)
  {
    buf := new byte[HEADER_SIZE + |payload|](_ => 0);
    var header := EncodeHeader(Header(kind, sender, sequence, |payload|, flags));
    forall i | 0 <= i < HEADER_SIZE {
      buf[i] := header[i];
    }
    forall i | 0 <= i < |payload| {
      buf[HEADER_SIZE + i] := payload[i];
    }
  }

  /** `buildStr` casts the text's size to 16 bits and copies that many bytes. */
  function StringPacket(kind: byte, sender: u16, sequence: u32, text: seq<byte>): seq<byte>
  {
    EncodePacket(kind, sender, sequence, text[..|text| % 0x1_0000], 0)
  }

  lemma PacketRoundTrip(kind: byte, sender: u16, sequence: u32, payload: seq<byte>, flags: byte)
    requires |payload| < 0x1_0000
    ensures var data := EncodePacket(kind, sender, sequence, payload, flags);
            && ParseHeader(data) == Some(Header(kind, sender, sequence, |payload|, flags))
            && Payload(data) == payload
  {
    var h := Header(kind, sender, sequence, |payload|, flags);
    var data := EncodePacket(kind, sender, sequence, payload, flags);
    UnpackPack(HeaderFields(h), HEADER_WIDTHS);
    assert data[..HEADER_SIZE] == EncodeHeader(h);
  }

  /** A text survives `buildStr` exactly when its size fits the 16-bit length field. */
  lemma StringPacketKeepsTextIff(kind: byte, sender: u16, sequence: u32, text: seq<byte>)
    ensures Payload(StringPacket(kind, sender, sequence, text)) == text <==> |text| < 0x1_0000
  {
    PacketRoundTrip(kind, sender, sequence, text[..|text| % 0x1_0000], 0);
  }

  // ---------- vehicle state ----------

  // Floats travel as opaque 32-bit words.
  type i8 = x: int | -0x80 <= x < 0x80
  datatype Vec3 = Vec3(x: u32, y: u32, z: u32)
  datatype Quat = Quat(x: u32, y: u32, z: u32, w: u32)
  datatype Wheels = Wheels(w0: byte, w1: byte, w2: byte, w3: byte)

  datatype VehicleState = VehicleState(
    vehicleId: byte, vflags: byte, pos: Vec3, rot: Quat, vel: Vec3, angVel: Vec3,
    wheels: Wheels, lights: byte, gear: i8, rpm: u32, health: u16)

  const STATE_SIZE: nat := 66
  const STATE_WIDTHS: seq<nat> :=
    [1, 1, 4, 4, 4, 4, 4, 4, 4, 4, 4, 4, 4, 4, 4, 1, 1, 1, 1, 1, 1, 4, 2]

  function TwosComplement(g: i8): byte { if g < 0 then g + 0x100 else g }

  function FromTwosComplement(b: byte): i8 { if b < 0x80 then b else b - 0x100 }

  function StateFields(v: VehicleState): (values: seq<nat>)
    ensures Fits(values, STATE_WIDTHS)
  {
    Ranges();
    [v.vehicleId, v.vflags, v.pos.x, v.pos.y, v.pos.z, v.rot.x, v.rot.y, v.rot.z, v.rot.w,
     v.vel.x, v.vel.y, v.vel.z, v.angVel.x, v.angVel.y, v.angVel.z,
     v.wheels.w0, v.wheels.w1, v.wheels.w2, v.wheels.w3,
     v.lights, TwosComplement(v.gear), v.rpm, v.health]
  }

  ghost predicate StateRanges(f: seq<nat>)
  {
    && |f| == 23
    && (forall i :: 0 <= i < 2 || 15 <= i < 21 ==> f[i] < 0x100)
    && (forall i :: 2 <= i < 15 ==> f[i] < 0x1_0000_0000)
    && f[21] < 0x1_0000_0000 && f[22] < 0x1_0000
  }

  function StateOfFields(f: seq<nat>): VehicleState
    requires StateRanges(f)
  {
    VehicleState(f[0], f[1], Vec3(f[2], f[3], f[4]), Quat(f[5], f[6], f[7], f[8]),
                 Vec3(f[9], f[10], f[11]), Vec3(f[12], f[13], f[14]),
                 Wheels(f[15], f[16], f[17], f[18]), f[19], FromTwosComplement(f[20]), f[21], f[22])
  }

  lemma FitsGivesRanges(f: seq<nat>, w: seq<nat>)
    requires Fits(f, w) && Layout(w)
    ensures StateRanges(f)
  {
    Ranges();
    assert f[21] < Range(w[21]) && f[22] < Range(w[22]);
  }

  ghost predicate Layout(w: seq<nat>)
  {
    && |w| == 23 && w[21] == 4 && w[22] == 2
    && (forall i :: 0 <= i < 2 || 15 <= i < 21 ==> w[i] == 1)
    && (forall i :: 2 <= i < 15 ==> w[i] == 4)
  }

  lemma WidthStep(widths: seq<nat>, k: nat)
    requires k < |widths|
    ensures Width(widths[k..]) == widths[k] + Width(widths[k + 1..])
  {
    assert widths[k..][1..] == widths[k + 1..];
  }

  /** From field `k` to field `n` there are `n - k` words of four bytes. */
  lemma {:induction false} WordsWidth(widths: seq<nat>, k: nat, n: nat)
    requires k <= n <= |widths|
    requires forall i :: k <= i < n ==> widths[i] == 4
    ensures Width(widths[k..]) == 4 * (n - k) + Width(widths[n..])
    decreases n - k
  {
    if k < n {
      WidthStep(widths, k);
      WordsWidth(widths, k + 1, n);
    }
  }

  lemma BytesWidth(widths: seq<nat>, k: nat, n: nat)
    requires k <= n <= |widths|
    requires forall i :: k <= i < n ==> widths[i] == 1
    ensures Width(widths[k..]) == n - k + Width(widths[n..])
    decreases n - k
  {
    if k < n {
      WidthStep(widths, k);
      BytesWidth(widths, k + 1, n);
    }
  }

  lemma LayoutWidth(w: seq<nat>)
    requires Layout(w)
    ensures Width(w) == STATE_SIZE
  {
    assert w[0..] == w;
    BytesWidth(w, 0, 2);
    WordsWidth(w, 2, 15);
    BytesWidth(w, 15, 21);
    WidthStep(w, 21);
    WidthStep(w, 22);
    assert w[23..] == [];
  }

  lemma StateWidth()
    ensures Width(STATE_WIDTHS) == STATE_SIZE
  {
    LayoutWidth(STATE_WIDTHS);
  }

  lemma StateFieldsInverse(f: seq<nat>)
    requires StateRanges(f)
    ensures StateFields(StateOfFields(f)) == f
  {
    var g := StateFields(StateOfFields(f));
    assert g[20] == f[20];
  }

  function EncodeState(v: VehicleState): (s: seq<byte>)
    ensures |s| == STATE_SIZE
  {
    StateWidth();
    PackWidth(StateFields(v), STATE_WIDTHS);
    Pack(StateFields(v), STATE_WIDTHS)
  }

  /** `None` stands for the exception raised on a payload shorter than a state. */
  function ParseState(payload: seq<byte>): (v: Option<VehicleState>)
    ensures v.None? <==> |payload| < STATE_SIZE
  {
    if |payload| < STATE_SIZE then None else Some(ReadState(payload[..STATE_SIZE], STATE_WIDTHS))
  }

  function ReadState(s: seq<byte>, w: seq<nat>): VehicleState
    requires Layout(w) && |s| == STATE_SIZE
  {
    LayoutWidth(w);
    PackUnpack(s, w);
    FitsGivesRanges(Unpack(s, w), w);
    StateOfFields(Unpack(s, w))
  }

  lemma ReadStateInverse(s: seq<byte>, w: seq<nat>)
    requires Layout(w) && |s| == STATE_SIZE
    ensures var f := StateFields(ReadState(s, w)); |f| == |w| && Pack(f, w) == s
  {
    LayoutWidth(w);
    PackUnpack(s, w);
    FitsGivesRanges(Unpack(s, w), w);
    StateFieldsInverse(Unpack(s, w));
  }

  lemma ReadPackedState(v: VehicleState, w: seq<nat>)
    requires Layout(w) && Fits(StateFields(v), w)
    ensures |Pack(StateFields(v), w)| == STATE_SIZE
    ensures ReadState(Pack(StateFields(v), w), w) == v
  {
    LayoutWidth(w);
    UnpackPack(StateFields(v), w);
    FitsGivesRanges(StateFields(v), w);
  }

  lemma StateRoundTrip(v: VehicleState, tail: seq<byte>)
    ensures ParseState(EncodeState(v) + tail) == Some(v)
  {
    FrontOf(EncodeState(v), tail);
    ReadPackedState(v, STATE_WIDTHS);
  }

  /** No two byte strings are read as the same state: every bit of the 66 bytes is kept. */
  lemma StateReadsEveryByte(payload: seq<byte>)
    requires |payload| >= STATE_SIZE
    ensures EncodeState(ParseState(payload).value) == payload[..STATE_SIZE]
  {
    ReadStateInverse(payload[..STATE_SIZE], STATE_WIDTHS);
  }

  /** How many bytes lie before field `k` of a state. */
  function Offset(k: nat): nat
  {
    if k <= 2 then k else if k <= 15 then 2 + 4 * (k - 2) else if k <= 21 then 54 + (k - 15) else 64
  }

  lemma FieldOffset(w: seq<nat>, k: nat)
    requires Layout(w) && k < 23
    ensures Width(w) - Width(w[k..]) == Offset(k)
  {
    LayoutWidth(w);
    WidthStep(w, 21);
    WidthStep(w, 22);
    assert w[23..] == [];
    if k <= 2 {
      BytesWidth(w, k, 2);
      WordsWidth(w, 2, 15);
      BytesWidth(w, 15, 21);
    } else if k <= 15 {
      WordsWidth(w, k, 15);
      BytesWidth(w, 15, 21);
    } else if k <= 21 {
      BytesWidth(w, k, 21);
    }
  }

  lemma StateFieldAt(v: VehicleState, w: seq<nat>, k: nat)
    requires Layout(w) && k < 23
    ensures |Pack(StateFields(v), w)| == STATE_SIZE && Offset(k) + w[k] <= STATE_SIZE
    ensures Pack(StateFields(v), w)[Offset(k)..Offset(k) + w[k]] == LittleEndian(StateFields(v)[k], w[k])
  {
    LayoutWidth(w);
    PackWidth(StateFields(v), w);
    FieldOffset(w, k);
    FieldAt(StateFields(v), w, k);
  }

  ghost predicate WordIs(v: VehicleState, k: nat, x: u32)
  {
    (2 <= k < 15 || k == 21) && StateFields(v)[k] == x
  }

  ghost predicate InOrder(v: VehicleState)
  {
    && WordIs(v, 2, v.pos.x) && WordIs(v, 3, v.pos.y) && WordIs(v, 4, v.pos.z)
    && WordIs(v, 5, v.rot.x) && WordIs(v, 6, v.rot.y) && WordIs(v, 7, v.rot.z) && WordIs(v, 8, v.rot.w)
    && WordIs(v, 9, v.vel.x) && WordIs(v, 10, v.vel.y) && WordIs(v, 11, v.vel.z)
    && WordIs(v, 12, v.angVel.x) && WordIs(v, 13, v.angVel.y) && WordIs(v, 14, v.angVel.z) && WordIs(v, 21, v.rpm)
  }

  lemma WordsInOrder(v: VehicleState)
    ensures InOrder(v)
  {
    hide StateFields;
    PlaceInOrder(v);
    MotionInOrder(v);
  }

  lemma PlaceInOrder(v: VehicleState)
    ensures WordIs(v, 2, v.pos.x) && WordIs(v, 3, v.pos.y) && WordIs(v, 4, v.pos.z)
    ensures WordIs(v, 5, v.rot.x) && WordIs(v, 6, v.rot.y) && WordIs(v, 7, v.rot.z) && WordIs(v, 8, v.rot.w)
  {
  }

  lemma MotionInOrder(v: VehicleState)
    ensures WordIs(v, 9, v.vel.x) && WordIs(v, 10, v.vel.y) && WordIs(v, 11, v.vel.z)
    ensures WordIs(v, 12, v.angVel.x) && WordIs(v, 13, v.angVel.y) && WordIs(v, 14, v.angVel.z)
    ensures WordIs(v, 21, v.rpm)
  {
  }

  lemma WordAt(v: VehicleState, k: nat, x: u32)
    requires WordIs(v, k, x)
    ensures EncodeState(v)[Offset(k)..Offset(k) + 4] == LittleEndian(x, 4)
  {
    StateFieldAt(v, STATE_WIDTHS, k);
  }

  lemma ByteAt(v: VehicleState, k: nat, x: byte)
    requires (k < 2 || 15 <= k < 21) && StateFields(v)[k] == x
    ensures EncodeState(v)[Offset(k)] == x
  {
    hide EncodeState, StateFields;
    EncodedFieldAt(v, k);
    OneByte(x);
    assert EncodeState(v)[Offset(k)..Offset(k) + 1][0] == x;
  }

  lemma EncodedFieldAt(v: VehicleState, k: nat)
    requires k < 23
    ensures Offset(k) + STATE_WIDTHS[k] <= STATE_SIZE
    ensures EncodeState(v)[Offset(k)..Offset(k) + STATE_WIDTHS[k]] == LittleEndian(StateFields(v)[k], STATE_WIDTHS[k])
  {
    StateFieldAt(v, STATE_WIDTHS, k);
  }

  /** The 66 bytes of a state one field after the other; the gear is a signed byte. */
  lemma StateLayout(v: VehicleState)
    ensures var s := EncodeState(v);
            && s[0] == v.vehicleId && s[1] == v.vflags
            && Vec3At(s, 2, v.pos) && QuatAt(s, 14, v.rot) && Vec3At(s, 30, v.vel) && Vec3At(s, 42, v.angVel)
            && s[54] == v.wheels.w0 && s[55] == v.wheels.w1 && s[56] == v.wheels.w2 && s[57] == v.wheels.w3
            && s[58] == v.lights && s[59] == v.gear % 0x100
            && s[60..64] == LittleEndian(v.rpm, 4) && s[64..66] == LittleEndian(v.health, 2)
  {
    StateLayoutBytes(v);
    StateLayoutWords(v);
  }

  ghost predicate Vec3At(s: seq<byte>, at: nat, p: Vec3)
    requires at + 12 <= |s|
  {
    && s[at..at + 4] == LittleEndian(p.x, 4) && s[at + 4..at + 8] == LittleEndian(p.y, 4)
    && s[at + 8..at + 12] == LittleEndian(p.z, 4)
  }

  ghost predicate QuatAt(s: seq<byte>, at: nat, q: Quat)
    requires at + 16 <= |s|
  {
    Vec3At(s, at, Vec3(q.x, q.y, q.z)) && s[at + 12..at + 16] == LittleEndian(q.w, 4)
  }

  lemma StateLayoutBytes(v: VehicleState)
    ensures var s := EncodeState(v);
            && s[0] == v.vehicleId && s[1] == v.vflags
            && s[54] == v.wheels.w0 && s[55] == v.wheels.w1 && s[56] == v.wheels.w2 && s[57] == v.wheels.w3
            && s[58] == v.lights && s[59] == v.gear % 0x100
  {
    ByteAt(v, 0, v.vehicleId);
    ByteAt(v, 1, v.vflags);
    ByteAt(v, 15, v.wheels.w0);
    ByteAt(v, 16, v.wheels.w1);
    ByteAt(v, 17, v.wheels.w2);
    ByteAt(v, 18, v.wheels.w3);
    ByteAt(v, 19, v.lights);
    ByteAt(v, 20, TwosComplement(v.gear));
  }

  lemma StateLayoutWords(v: VehicleState)
    ensures var s := EncodeState(v);
            && Vec3At(s, 2, v.pos) && QuatAt(s, 14, v.rot) && Vec3At(s, 30, v.vel) && Vec3At(s, 42, v.angVel)
            && s[60..64] == LittleEndian(v.rpm, 4) && s[64..66] == LittleEndian(v.health, 2)
  {
    WordsInOrder(v);
    LaidOut(v);
  }

  lemma LaidOut(v: VehicleState)
    requires InOrder(v)
    ensures var s := EncodeState(v);
            && Vec3At(s, 2, v.pos) && QuatAt(s, 14, v.rot) && Vec3At(s, 30, v.vel) && Vec3At(s, 42, v.angVel)
            && s[60..64] == LittleEndian(v.rpm, 4) && s[64..66] == LittleEndian(v.health, 2)
  {
    hide EncodeState, StateFields;
    VecAt(v, 2, v.pos);
    VecAt(v, 5, Vec3(v.rot.x, v.rot.y, v.rot.z));
    WordAt(v, 8, v.rot.w);
    VecAt(v, 9, v.vel);
    VecAt(v, 12, v.angVel);
    WordAt(v, 21, v.rpm);
    HealthAt(v);
  }

  /** Three words in a row. */
  lemma VecAt(v: VehicleState, k: nat, p: Vec3)
    requires 2 <= k < 13 && WordIs(v, k, p.x) && WordIs(v, k + 1, p.y) && WordIs(v, k + 2, p.z)
    ensures Vec3At(EncodeState(v), Offset(k), p)
  {
    hide EncodeState, StateFields;
    WordAt(v, k, p.x);
    WordAt(v, k + 1, p.y);
    WordAt(v, k + 2, p.z);
  }

  lemma HealthAt(v: VehicleState)
    ensures EncodeState(v)[64..66] == LittleEndian(v.health, 2)
  {
    StateFieldAt(v, STATE_WIDTHS, 22);
  }

  function VehicleUpdate(sender: u16, sequence: u32, v: VehicleState): seq<byte>
  {
    EncodePacket(VEHICLE_UPDATE, sender, sequence, EncodeState(v), 0)
  }

  datatype Update = Update(sender: u16, sequence: u32, state: VehicleState)

  /** How a receiver reads a vehicle update. */
  function ParseUpdate(data: seq<byte>): Option<Update>
  {
    match ParseHeader(data)
    case None => None
    case Some(h) =>
      match ParseState(Payload(data))
      case None => None
      case Some(v) => if h.kind == VEHICLE_UPDATE then Some(Update(h.sender, h.sequence, v)) else None
  }

  lemma VehicleUpdateRoundTrip(sender: u16, sequence: u32, v: VehicleState)
    ensures ParseUpdate(VehicleUpdate(sender, sequence, v)) == Some(Update(sender, sequence, v))
  {
    PacketRoundTrip(VEHICLE_UPDATE, sender, sequence, EncodeState(v), 0);
    StateRoundTrip(v, []);
    assert EncodeState(v) + [] == EncodeState(v);
  }
}
