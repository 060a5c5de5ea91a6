/**
 The BeamMP transform text: "<pid>-<vid>", thirteen numbers and a time, joined
 by colons, written through a 512-byte buffer.
 */
module Transform {
  import opened Bytes
  import opened Decimal

  const COLON: byte := ':' as int
  const BUFFER: nat := 512

  /** Position, rotation, velocity and angular velocity, in the order of the wire. */
  datatype Pose<T> = Pose(px: T, py: T, pz: T, rx: T, ry: T, rz: T, rw: T,
                          vx: T, vy: T, vz: T, ax: T, ay: T, az: T)

  function Components<T>(p: Pose<T>): (s: seq<T>)
    ensures |s| == 13
  {
    [p.px, p.py, p.pz, p.rx, p.ry, p.rz, p.rw, p.vx, p.vy, p.vz, p.ax, p.ay, p.az]
  }

  datatype Transform = Transform(playerId: u16, vehicleId: byte, pose: Pose<Number>, timestamp: Number)

  const NO_TIME := Number(false, 0, 0)

  // ---------- joining and splitting ----------

  predicate Plain(s: text)
  {
    COLON !in s
  }

  function Join(parts: seq<text>): text
  {
    if parts == [] then []
    else if |parts| == 1 then parts[0]
    else parts[0] + [COLON] + Join(parts[1..])
  }

  /** The length of the longest front part without a colon. */
  function ToColon(s: text): (n: nat)
    ensures n <= |s| && Plain(s[..n])
    ensures n < |s| ==> s[n] == COLON
  {
    if s == [] || s[0] == COLON then 0
    else
      var n := ToColon(s[1..]);
      assert s[..n + 1] == [s[0]] + s[1..][..n];
      n + 1
  }

  /** The tokens `getline` yields: no empty token after a final colon. */
  function Split(s: text): seq<text>
    decreases |s|
  {
    if s == [] then []
    else
      var n := ToColon(s);
      if n == |s| then [s] else [s[..n]] + Split(s[n + 1..])
  }

  method Tokens(data: text) returns (parts: seq<text>)
    ensures parts == Split(data)
  {
    parts := [];
    var rest := data;
    while rest != []
      invariant parts + Split(rest) == Split(data)
      decreases |rest|
    {
      var n := 0;
      while n < |rest| && rest[n] != COLON
        invariant n <= ToColon(rest)
      {
        n := n + 1;
      }
      assert n == ToColon(rest);
      assert n == |rest| ==> rest[..n] == rest;
      Associates(parts, [rest[..n]], if n < |rest| then Split(rest[n + 1..]) else []);
      parts := parts + [rest[..n]];
      rest := if n < |rest| then rest[n + 1..] else [];
    }
  }

  lemma {:induction false} ToColonFirst(part: text, tail: text)
    requires Plain(part)
    requires tail == [] || tail[0] == COLON
    ensures ToColon(part + tail) == |part|
  {
    if part == [] {
      assert part + tail == tail;
    } else {
      assert (part + tail)[1..] == part[1..] + tail;
      assert part[0] in part;
      ToColonFirst(part[1..], tail);
    }
  }

  ghost predicate AllPlain(parts: seq<text>)
  {
    forall i :: 0 <= i < |parts| ==> Plain(parts[i])
  }

  lemma SplitFirst(part: text, rest: text)
    requires Plain(part)
    ensures Split(part + [COLON] + rest) == [part] + Split(rest)
  {
    var s := part + [COLON] + rest;
    assert s == part + ([COLON] + rest);
    ToColonFirst(part, [COLON] + rest);
    assert s[..|part|] == part && s[|part| + 1..] == rest;
  }

  lemma SplitPlain(part: text)
    requires Plain(part)
    ensures Split(part) == if part == [] then [] else [part]
  {
    assert part + [] == part;
    ToColonFirst(part, []);
  }

  /** Splitting undoes joining, unless the last part is empty. */
  lemma {:induction false} SplitJoin(parts: seq<text>)
    requires parts != [] && AllPlain(parts) && parts[|parts| - 1] != []
    ensures Split(Join(parts)) == parts
  {
    if |parts| == 1 {
      SplitPlain(parts[0]);
    } else {
      SplitFirst(parts[0], Join(parts[1..]));
      SplitJoin(parts[1..]);
    }
  }

  /** Taking characters off the end of a joined text shortens its last part. */
  lemma {:induction false} JoinDropEnd(parts: seq<text>, lost: nat)
    requires parts != [] && lost <= |parts[|parts| - 1]|
    ensures |Join(parts)| >= lost
    ensures Join(parts)[..|Join(parts)| - lost] == Join(Shortened(parts, lost))
  {
    if |parts| > 1 {
      var first, rest := parts[0], parts[1..];
      JoinDropEnd(rest, lost);
      assert Shortened(parts, lost) == [first] + Shortened(rest, lost);
      assert (first + [COLON] + Join(rest))[..|Join(parts)| - lost]
             == first + [COLON] + Join(rest)[..|Join(rest)| - lost];
    }
  }

  function Shortened(parts: seq<text>, lost: nat): (r: seq<text>)
    requires parts != [] && lost <= |parts[|parts| - 1]|
    ensures |r| == |parts|
  {
    var last := parts[|parts| - 1];
    parts[|parts| - 1 := last[..|last| - lost]]
  }

  /** Once the whole last part is gone there are fewer parts. */
  lemma {:induction false} SplitFew(parts: seq<text>, k: nat)
    requires parts != [] && AllPlain(parts)
    requires k + |parts[|parts| - 1]| <= |Join(parts)|
    ensures |Split(Join(parts)[..k])| < |parts|
  {
    if |parts| == 1 {
      assert Join(parts)[..k] == [];
    } else if k <= |parts[0]| {
      FirstCut(parts, k);
    } else {
      JoinTail(parts);
      SplitFew(parts[1..], k - |parts[0]| - 1);
      CutAfter(parts[0], Join(parts[1..]), k);
    }
  }

  lemma FirstCut(parts: seq<text>, k: nat)
    requires parts != [] && Plain(parts[0]) && k <= |parts[0]|
    ensures k <= |Join(parts)| && |Split(Join(parts)[..k])| <= 1
  {
    assert Join(parts)[..k] == parts[0][..k];
    SplitPlain(parts[0][..k]);
  }

  lemma JoinTail(parts: seq<text>)
    requires |parts| > 1 && AllPlain(parts)
    ensures AllPlain(parts[1..]) && parts[1..][|parts| - 2] == parts[|parts| - 1]
    ensures Join(parts) == parts[0] + [COLON] + Join(parts[1..])
    ensures |Join(parts)| == |parts[0]| + 1 + |Join(parts[1..])|
  {
  }

  lemma CutAfter(first: text, tail: text, k: nat)
    requires Plain(first) && |first| < k <= |first| + 1 + |tail|
    ensures |Split((first + [COLON] + tail)[..k])| == 1 + |Split(tail[..k - |first| - 1])|
  {
    var rest := tail[..k - |first| - 1];
    assert (first + [COLON] + tail)[..k] == first + [COLON] + rest;
    SplitFirst(first, rest);
  }

  // ---------- encoding ----------

  function Parts(pid: u16, vid: byte, pose: Pose<Fixed>): (parts: seq<text>)
    ensures |parts| == 14
  {
    [Digits(pid) + [MINUS] + Digits(vid)] + PrintAll(Components(pose))
  }

  function PrintAll(xs: seq<Fixed>): (parts: seq<text>)
    ensures |parts| == |xs|
  {
    if xs == [] then [] else PrintAll(xs[..|xs| - 1]) + [Print(xs[|xs| - 1])]
  }

  lemma {:induction false} PrintAllAt(xs: seq<Fixed>, i: nat)
    requires i < |xs|
    ensures PrintAll(xs)[i] == Print(xs[i])
  {
    if i < |xs| - 1 { PrintAllAt(xs[..|xs| - 1], i); }
  }

  /** The whole text, as if the buffer were large enough; the time is always 0. */
  function FullText(pid: u16, vid: byte, pose: Pose<Fixed>): text
  {
    Join(Parts(pid, vid, pose)) + [COLON, ZERO]
  }

  /** What the buffer holds: at most 511 characters and the terminator. */
  function InBuffer(s: text): (r: text)
    ensures |r| < BUFFER
  {
    if |s| < BUFFER then s else s[..BUFFER - 1]
  }

  function EncodeTransform(pid: u16, vid: byte, pose: Pose<Fixed>): text
  {
    InBuffer(FullText(pid, vid, pose))
  }

  // ---------- parsing ----------

  function ToMinus(s: text): (n: nat)
    ensures n <= |s|
  {
    if s == [] || s[0] == MINUS then 0 else 1 + ToMinus(s[1..])
  }

  function Extended(before: Option<seq<Number>>, x: Option<Number>): Option<seq<Number>>
  {
    match (before, x)
    case (Some(xs), Some(y)) => Some(xs + [y])
    case _ => None
  }

  /** All numbers, or none if any of them cannot be read. */
  function ReadAll(parts: seq<text>): (r: Option<seq<Number>>)
    ensures r.Some? ==> |r.value| == |parts|
  {
    if parts == [] then Some([])
    else Extended(ReadAll(parts[..|parts| - 1]), Stof(parts[|parts| - 1]))
  }

  function PoseOf(c: seq<Number>): Pose<Number>
    requires |c| == 13
  {
    Pose(c[0], c[1], c[2], c[3], c[4], c[5], c[6], c[7], c[8], c[9], c[10], c[11], c[12])
  }

  datatype Ids = Ids(playerId: u16, vehicleId: byte)

  /** "<pid>-<vid>"; ids are truncated to their width, as the casts do. */
  function ParseIds(part: text): Option<Ids>
  {
    var dash := ToMinus(part);
    if dash == |part| then None
    else match (Stoi(part[..dash]), Stoi(part[dash + 1..]))
      case (Some(pid), Some(vid)) => Some(Ids(pid % 0x1_0000, vid % 0x100))
      case _ => None
  }

  function ParseTime(parts: seq<text>): Option<Number>
  {
    if |parts| > 14 then Stof(parts[14]) else Some(NO_TIME)
  }

  /** `None` stands for a rejected text. */
  function ParseParts(parts: seq<text>): Option<Transform>
  {
    if |parts| < 14 then None
    else match (ParseIds(parts[0]), ReadAll(parts[1..14]), ParseTime(parts))
      case (Some(ids), Some(c), Some(time)) => Some(Transform(ids.playerId, ids.vehicleId, PoseOf(c), time))
      case _ => None
  }

  function ParseTransform(data: text): Option<Transform>
  {
    ParseParts(Split(data))
  }

  method Parse(data: text) returns (out: Option<Transform>)
    ensures out == ParseTransform(data)
  {
    var parts := Tokens(data);
    out := ParseParts(parts);
  }

  // ---------- the theorems ----------

  lemma PrintIsPlain(x: Fixed)
    ensures Plain(Print(x)) && |Print(x)| >= 8
  {
  }

  lemma PartsArePlain(pid: u16, vid: byte, pose: Pose<Fixed>)
    ensures AllPlain(Parts(pid, vid, pose))
  {
    var p := Parts(pid, vid, pose);
    forall i | 0 <= i < |p| ensures Plain(p[i]) {
      if i > 0 {
        PrintAllAt(Components(pose), i - 1);
        PrintIsPlain(Components(pose)[i - 1]);
      }
    }
  }

  lemma {:induction false} ToMinusFirst(digits: text, tail: text)
    requires MINUS !in digits
    ensures ToMinus(digits + [MINUS] + tail) == |digits|
  {
    var s := digits + [MINUS] + tail;
    if digits != [] {
      assert digits[0] in digits;
      assert s[1..] == digits[1..] + [MINUS] + tail;
      ToMinusFirst(digits[1..], tail);
    }
  }

  lemma {:induction false} ReadAllPrinted(xs: seq<Fixed>)
    ensures ReadAll(PrintAll(xs)) == Some(ReadEach(xs))
  {
    if xs != [] {
      var front, last := xs[..|xs| - 1], xs[|xs| - 1];
      StofPrint(last);
      assert PrintAll(xs)[..|xs| - 1] == PrintAll(front);
      ReadAllPrinted(front);
    }
  }

  function Read(x: Fixed): Number { Number(x.negative, x.millionths, PLACES) }

  function ReadEach(xs: seq<Fixed>): (r: seq<Number>)
    ensures |r| == |xs|
    ensures forall i :: 0 <= i < |xs| ==> r[i] == Read(xs[i])
  {
    if xs == [] then [] else ReadEach(xs[..|xs| - 1]) + [Read(xs[|xs| - 1])]
  }

  lemma ReadAllLast(parts: seq<text>, last: text)
    ensures ReadAll(parts + [last]) == Extended(ReadAll(parts), Stof(last))
  {
    assert (parts + [last])[..|parts|] == parts;
  }

  /** The first '-' ends the player id, whatever signs the numbers after it carry. */
  lemma IdsRoundTrip(pid: u16, vid: byte)
    ensures ParseIds(Digits(pid) + [MINUS] + Digits(vid)) == Some(Ids(pid, vid))
  {
    StoiDigits(pid);
    StoiDigits(vid);
    IdsGiven(Digits(pid), Digits(vid), pid, vid);
  }

  lemma IdsGiven(a: text, b: text, pid: u16, vid: byte)
    requires AllDigits(a) && Stoi(a) == Some(pid) && Stoi(b) == Some(vid)
    ensures ParseIds(a + [MINUS] + b) == Some(Ids(pid, vid))
  {
    var part := a + [MINUS] + b;
    ToMinusFirst(a, b);
    assert part[..|a|] == a && part[|a| + 1..] == b;
  }

  lemma PartsGiven(parts: seq<text>, id: text, ids: Ids, numbers: seq<text>)
    requires |numbers| == 13 && (parts == [id] + numbers || parts == [id] + numbers + [[ZERO]])
    requires ParseIds(id) == Some(ids)
    ensures ParseParts(parts) == Reading(ids.playerId, ids.vehicleId, ReadAll(numbers))
  {
    assert parts[1..14] == numbers;
    TimeZero();
  }

  lemma TimeZero()
    ensures Stof([ZERO]) == Some(NO_TIME)
  {
    var s := [ZERO];
    assert Span(s) == 1;
    assert s[..1] + [] == s;
    assert Value(s) == 0;
  }

  /** The parser gives back the ids, the time 0, and thirteen numbers of the sign and value printed. */
  ghost predicate RoundTrips(pid: u16, vid: byte, pose: Pose<Fixed>)
  {
    Recovers(ParseTransform(EncodeTransform(pid, vid, pose)), pid, vid, pose)
  }

  ghost predicate Recovers(r: Option<Transform>, pid: u16, vid: byte, pose: Pose<Fixed>)
  {
    && r.Some?
    && r.value.playerId == pid && r.value.vehicleId == vid && r.value.timestamp == NO_TIME
    && forall i :: 0 <= i < 13 ==> Denotes(Components(r.value.pose)[i], Components(pose)[i])
  }

  /** How many characters of the full text, the trailing ":0" aside, the buffer has no room for. */
  function Lost(pid: u16, vid: byte, pose: Pose<Fixed>): (n: nat)
    ensures n == Missing(Parts(pid, vid, pose))
  {
    var n := |FullText(pid, vid, pose)|;
    if n <= 513 then 0 else n - 513
  }

  /**
   The text round trip, and exactly when it holds: ids and values come back if and
   only if the buffer has room for all but the trailing ":0", or what it loses
   beyond that are at most the last number's zeros after the point and the point.
   */
  lemma RoundTripIff(pid: u16, vid: byte, pose: Pose<Fixed>)
    ensures RoundTrips(pid, vid, pose)
            <==> Lost(pid, vid, pose) == 0 || KeepsValue(pose.az, Lost(pid, vid, pose))
  {
    hide Recovers, Lost, KeepsValue, ReadsAs, AllPlain, Missing, Line, Join, InBuffer, EncodeTransform, ParseTransform;
    hide ParseIds, ReadAll, ReadEach, Components;
    var id, front, last := Laid(pid, vid, pose);
    if Lost(pid, vid, pose) < |last| {
      LastDecides(pid, vid, pose, id, front, last);
    } else {
      LastIsGone(pid, vid, pose, Line(id, front, last));
      TooMuchLost(pose.az, Lost(pid, vid, pose));
    }
  }

  lemma TooMuchLost(x: Fixed, lost: nat)
    requires lost >= 8
    ensures !KeepsValue(x, lost)
  {
  }

  /** The text as a line of parts, and what is known of them. */
  lemma Laid(pid: u16, vid: byte, pose: Pose<Fixed>) returns (id: text, front: seq<text>, last: text)
    ensures |front| == 12 && 8 <= |last| && AllPlain(Line(id, front, last))
    ensures ParseIds(id) == Some(Ids(pid, vid)) && ReadAll(front) == Some(ReadEach(Components(pose)[..12]))
    ensures forall lost: nat | lost < |last| :: ReadsAs(last[..|last| - lost], pose.az) <==> KeepsValue(pose.az, lost)
    ensures KeepsValue(pose.az, 0)
    ensures EncodeTransform(pid, vid, pose) == InBuffer(Join(Line(id, front, last)) + [COLON, ZERO])
    ensures Lost(pid, vid, pose) == Missing(Line(id, front, last))
  {
    id, front, last := IdText(pid, vid), PrintAll(Components(pose)[..12]), Print(pose.az);
    LaidOut(pid, vid, pose);
    LaidPlain(pid, vid, pose);
    IdsRoundTrip(pid, vid);
    ReadAllPrinted(Components(pose)[..12]);
    AnyCutReadsIff(pose.az);
  }

  lemma LaidOut(pid: u16, vid: byte, pose: Pose<Fixed>)
    ensures var line := Line(IdText(pid, vid), PrintAll(Components(pose)[..12]), Print(pose.az));
            EncodeTransform(pid, vid, pose) == InBuffer(Join(line) + [COLON, ZERO])
            && Lost(pid, vid, pose) == Missing(line)
  {
    PartsAreLine(pid, vid, pose);
  }

  lemma LaidPlain(pid: u16, vid: byte, pose: Pose<Fixed>)
    ensures AllPlain(Line(IdText(pid, vid), PrintAll(Components(pose)[..12]), Print(pose.az)))
  {
    PartsAreLine(pid, vid, pose);
    PartsArePlain(pid, vid, pose);
  }

  lemma AnyCutReadsIff(x: Fixed)
    ensures |Print(x)| >= 8 && KeepsValue(x, 0)
    ensures forall lost: nat | lost < |Print(x)| :: ReadsAs(Print(x)[..|Print(x)| - lost], x) <==> KeepsValue(x, lost)
  {
    forall lost: nat | lost < |Print(x)| ensures ReadsAs(Print(x)[..|Print(x)| - lost], x) <==> KeepsValue(x, lost) {
      CutReadsIff(x, lost);
    }
    NothingLost(x);
  }

  /** Room for all parts but the end of the last: everything depends on what is left of it. */
  lemma LastDecides(pid: u16, vid: byte, pose: Pose<Fixed>, id: text, front: seq<text>, last: text)
    requires |front| == 12 && AllPlain(Line(id, front, last)) && Missing(Line(id, front, last)) < |last|
    requires ParseIds(id) == Some(Ids(pid, vid)) && ReadAll(front) == Some(ReadEach(Components(pose)[..12]))
    ensures Recovers(ParseTransform(InBuffer(Join(Line(id, front, last)) + [COLON, ZERO])), pid, vid, pose)
            <==> ReadsAs(last[..|last| - Missing(Line(id, front, last))], pose.az)
  {
    var line := Line(id, front, last);
    SplitLine(id, front, last);
    var parts := Split(InBuffer(Join(line) + [COLON, ZERO]));
    LineRecoversIff(pid, vid, pose, parts, id, front, last[..|last| - Missing(line)]);
  }

  /** No room for any of the last part: there are too few parts. */
  lemma LastIsGone(pid: u16, vid: byte, pose: Pose<Fixed>, parts: seq<text>)
    requires |parts| == 14 && AllPlain(parts) && 8 <= |parts[13]| <= Missing(parts)
    ensures !Recovers(ParseTransform(InBuffer(Join(parts) + [COLON, ZERO])), pid, vid, pose)
  {
    assert InBuffer(Join(parts) + [COLON, ZERO]) == Join(parts)[..511];
    SplitFew(parts, 511);
  }

  /** How many characters of the joined parts the buffer has no room for. */
  function Missing(parts: seq<text>): nat
  {
    if |Join(parts)| <= 511 then 0 else |Join(parts)| - 511
  }

  lemma SplitInBuffer(parts: seq<text>)
    requires parts != [] && AllPlain(parts) && Missing(parts) < |parts[|parts| - 1]|
    ensures var r, cut := Split(InBuffer(Join(parts) + [COLON, ZERO])), Shortened(parts, Missing(parts));
            r == cut || r == cut + [[ZERO]]
  {
    var lost := Missing(parts);
    if lost == 0 {
      NothingShortened(parts);
      WholeInBuffer(parts);
    } else {
      assert InBuffer(Join(parts) + [COLON, ZERO]) == Join(parts)[..|Join(parts)| - lost];
      JoinDropEnd(parts, lost);
      ShortenedIsPlain(parts, lost);
      SplitJoin(Shortened(parts, lost));
    }
  }

  lemma NothingShortened(parts: seq<text>)
    requires parts != []
    ensures Shortened(parts, 0) == parts
  {
    var last := parts[|parts| - 1];
    assert last[..|last|] == last;
  }

  lemma ShortenedIsPlain(parts: seq<text>, lost: nat)
    requires parts != [] && AllPlain(parts) && lost < |parts[|parts| - 1]|
    ensures AllPlain(Shortened(parts, lost)) && Shortened(parts, lost)[|parts| - 1] != []
  {
  }

  /** The id, twelve numbers and a last one. */
  function Line(id: text, front: seq<text>, last: text): (parts: seq<text>)
    ensures |parts| == |front| + 2 && parts[|parts| - 1] == last
  {
    [id] + (front + [last])
  }

  function IdText(pid: u16, vid: byte): text
  {
    Digits(pid) + [MINUS] + Digits(vid)
  }

  lemma PartsAreLine(pid: u16, vid: byte, pose: Pose<Fixed>)
    ensures Parts(pid, vid, pose) == Line(IdText(pid, vid), PrintAll(Components(pose)[..12]), Print(pose.az))
  {
    PrintAllLast(Components(pose)[..12], pose.az);
    assert Components(pose) == Components(pose)[..12] + [pose.az];
  }

  /** The parts of what the buffer holds: the last number without what was lost, and maybe the time. */
  lemma SplitLine(id: text, front: seq<text>, last: text)
    requires AllPlain(Line(id, front, last)) && Missing(Line(id, front, last)) < |last|
    ensures var r := Split(InBuffer(Join(Line(id, front, last)) + [COLON, ZERO]));
            var cut := Line(id, front, last[..|last| - Missing(Line(id, front, last))]);
            r == cut || r == cut + [[ZERO]]
  {
    var line := Line(id, front, last);
    SplitInBuffer(line);
    ShortenedLine(id, front, last, Missing(line));
  }

  lemma ShortenedLine(id: text, front: seq<text>, last: text, lost: nat)
    requires lost <= |last|
    ensures Shortened(Line(id, front, last), lost) == Line(id, front, last[..|last| - lost])
  {
  }

  /** With all parts there but the last number cut, everything depends on that number. */
  lemma LineRecoversIff(pid: u16, vid: byte, pose: Pose<Fixed>, parts: seq<text>,
                        id: text, front: seq<text>, last: text)
    requires |front| == 12 && (parts == Line(id, front, last) || parts == Line(id, front, last) + [[ZERO]])
    requires ParseIds(id) == Some(Ids(pid, vid)) && ReadAll(front) == Some(ReadEach(Components(pose)[..12]))
    ensures Recovers(ParseParts(parts), pid, vid, pose) <==> ReadsAs(last, pose.az)
  {
    PartsGiven(parts, id, Ids(pid, vid), front + [last]);
    ReadAllLast(front, last);
    ReadRecoversIff(pid, vid, pose, Stof(last));
  }

  /** The transform that twelve printed numbers and one more reading give. */
  function Reading(pid: u16, vid: byte, c: Option<seq<Number>>): Option<Transform>
    requires c.Some? ==> |c.value| == 13
  {
    match c
    case None => None
    case Some(xs) => Some(Transform(pid, vid, PoseOf(xs), NO_TIME))
  }

  lemma ReadRecoversIff(pid: u16, vid: byte, pose: Pose<Fixed>, last: Option<Number>)
    ensures Recovers(Reading(pid, vid, Extended(Some(ReadEach(Components(pose)[..12])), last)), pid, vid, pose)
            <==> last.Some? && Denotes(last.value, pose.az)
  {
    if last.Some? { PoseRecoversIff(pose, ReadEach(Components(pose)[..12]) + [last.value]); }
  }

  lemma PrintAllLast(xs: seq<Fixed>, x: Fixed)
    ensures PrintAll(xs + [x]) == PrintAll(xs) + [Print(x)]
  {
    assert (xs + [x])[..|xs|] == xs;
  }

  lemma NothingLost(x: Fixed)
    ensures KeepsValue(x, 0)
  {
    assert Pow10(0) == 1;
  }

  lemma PoseRecoversIff(pose: Pose<Fixed>, c: seq<Number>)
    requires |c| == 13 && forall i :: 0 <= i < 12 ==> c[i] == Read(Components(pose)[i])
    ensures (forall i :: 0 <= i < 13 ==> Denotes(Components(PoseOf(c))[i], Components(pose)[i]))
            <==> Denotes(c[12], pose.az)
  {
    assert Components(PoseOf(c)) == c;
    forall i | 0 <= i < 12 ensures Denotes(c[i], Components(pose)[i]) { PrintedDenotes(Components(pose)[i]); }
    assert Components(pose)[12] == pose.az;
  }

  lemma WholeInBuffer(parts: seq<text>)
    requires parts != [] && AllPlain(parts) && parts[|parts| - 1] != [] && |Join(parts)| <= 511
    ensures var r := Split(InBuffer(Join(parts) + [COLON, ZERO])); r == parts || r == parts + [[ZERO]]
  {
    var joined := Join(parts);
    if |joined| == 511 {
      assert InBuffer(joined + [COLON, ZERO]) == joined;
      SplitJoin(parts);
    } else {
      var tail := if |joined| == 510 then [] else [ZERO];
      assert InBuffer(joined + [COLON, ZERO]) == joined + [COLON] + tail;
      SplitJoinTail(parts, tail);
      SplitPlain(tail);
      assert parts + [] == parts;
    }
  }

  lemma {:induction false} SplitJoinTail(parts: seq<text>, rest: text)
    requires parts != [] && AllPlain(parts)
    ensures Split(Join(parts) + [COLON] + rest) == parts + Split(rest)
  {
    if |parts| == 1 {
      SplitFirst(parts[0], rest);
    } else {
      var tail := Join(parts[1..]) + [COLON] + rest;
      assert Join(parts) + [COLON] + rest == parts[0] + [COLON] + tail;
      SplitFirst(parts[0], tail);
      SplitJoinTail(parts[1..], rest);
      Associates([parts[0]], parts[1..], Split(rest));
      assert parts == [parts[0]] + parts[1..];
    }
  }

  // ---------- the buffer bound ----------

  lemma {:induction false} JoinLength(parts: seq<text>, width: nat)
    requires parts != [] && forall i :: 0 < i < |parts| ==> |parts[i]| <= width
    ensures |Join(parts)| <= |parts[0]| + (|parts| - 1) * (width + 1)
  {
    if |parts| > 1 {
      JoinLength(parts[1..], width);
      assert (|parts| - 1) * (width + 1) == (|parts| - 2) * (width + 1) + width + 1;
    }
  }

  /** Numbers below 10^w before the point take at most w + 8 characters each. */
  lemma TextLength(pid: u16, vid: byte, pose: Pose<Fixed>, w: nat)
    requires w >= 1
    requires forall i :: 0 <= i < 13 ==> Components(pose)[i].millionths < MILLION * Pow10(w)
    ensures |FullText(pid, vid, pose)| <= 128 + 13 * w
  {
    var parts := Parts(pid, vid, pose);
    forall i | 0 < i < |parts| ensures |parts[i]| <= w + 8 {
      var x := Components(pose)[i - 1];
      PrintAllAt(Components(pose), i - 1);
      DigitsLength(x.millionths / MILLION, w);
    }
    assert Pow10(5) == 100000;
    assert Pow10(3) == 1000;
    DigitsLength(pid, 5);
    DigitsLength(vid, 3);
    JoinLength(parts, w + 8);
  }

  /** Below 10^29 the buffer never truncates, and the text has exactly fifteen parts. */
  lemma BufferSuffices(pid: u16, vid: byte, pose: Pose<Fixed>)
    requires forall i :: 0 <= i < 13 ==> Components(pose)[i].millionths < MILLION * Pow10(29)
    ensures |FullText(pid, vid, pose)| <= 505
    ensures EncodeTransform(pid, vid, pose) == FullText(pid, vid, pose)
    ensures |Split(EncodeTransform(pid, vid, pose))| == 15
  {
    TextLength(pid, vid, pose, 29);
    PartsArePlain(pid, vid, pose);
    SplitJoinTail(Parts(pid, vid, pose), [ZERO]);
    SplitPlain([ZERO]);
    assert FullText(pid, vid, pose) == Join(Parts(pid, vid, pose)) + [COLON] + [ZERO];
  }

  // ---------- a text that does not fit ----------

  /** 2^110, which a float holds exactly and which takes 41 characters. */
  const HUGE: nat := 1298074214633706907132624082305024

  function HugePose(last: Fixed): Pose<Fixed>
  {
    var h := Fixed(false, HUGE * MILLION);
    Pose(h, h, h, h, h, h, h, h, h, h, h, h, last)
  }

  lemma HugeLength()
    ensures |Print(Fixed(false, HUGE * MILLION))| == 41
  {
    assert Pow10(11) == 100000000000;
    assert Pow10(22) == 10000000000000000000000;
    assert Pow10(33) == 1000000000000000000000000000000000;
    assert Pow10(34) == 10000000000000000000000000000000000;
    DigitsExactLength(HUGE, 34);
  }

  lemma {:induction false} JoinLengths(parts: seq<text>, width: nat)
    requires parts != [] && forall i :: 0 < i < |parts| ==> |parts[i]| == width
    ensures |Join(parts)| == |parts[0]| + (|parts| - 1) * (width + 1)
  {
    if |parts| > 1 {
      JoinLengths(parts[1..], width);
      assert (|parts| - 1) * (width + 1) == (|parts| - 2) * (width + 1) + width + 1;
    }
  }

  lemma {:induction false} JoinOneMore(parts: seq<text>, last: text)
    requires parts != []
    ensures |Join(parts + [last])| == |Join(parts)| + 1 + |last|
  {
    assert (parts + [last])[1..] == parts[1..] + [last];
    if |parts| > 1 { JoinOneMore(parts[1..], last); }
  }

  lemma LineLength(id: text, front: seq<text>, last: text, width: nat)
    requires forall i :: 0 <= i < |front| ==> |front[i]| == width
    ensures |Join(Line(id, front, last))| == |id| + |front| * (width + 1) + 1 + |last|
  {
    Associates([id], front, [last]);
    JoinLengths([id] + front, width);
    JoinOneMore([id] + front, last);
  }

  lemma HugeTextLength(last: Fixed)
    requires |Print(last)| == 8
    ensures |FullText(0, 0, HugePose(last))| == 518
  {
    var twelve := Components(HugePose(last))[..12];
    forall i | 0 <= i < 12 ensures |PrintAll(twelve)[i]| == 41 {
      PrintAllAt(twelve, i);
      HugeLength();
    }
    PartsAreLine(0, 0, HugePose(last));
    LineLength(IdText(0, 0), PrintAll(twelve), Print(last), 41);
  }

  lemma QuarterIsNotKept()
    ensures |Print(Fixed(false, 250_000))| == 8 && !KeepsValue(Fixed(false, 250_000), 5)
  {
    PowersOfTen();
  }

  lemma ZeroIsKept()
    ensures |Print(Fixed(false, 0))| == 8 && KeepsValue(Fixed(false, 0), 5)
  {
    PowersOfTen();
  }

  /** Twelve such numbers and 0.25 make a text of 518 characters, and what comes back is not 0.25. */
  lemma OverlongFails()
    ensures var pose := HugePose(Fixed(false, 250_000));
            |FullText(0, 0, pose)| == 518 && !RoundTrips(0, 0, pose)
  {
    var pose := HugePose(Fixed(false, 250_000));
    QuarterIsNotKept();
    HugeTextLength(pose.az);
    RoundTripIff(0, 0, pose);
  }

  /** With 0 in place of 0.25 the text is as long, and everything comes back. */
  lemma OverlongMayRecover()
    ensures var pose := HugePose(Fixed(false, 0));
            |FullText(0, 0, pose)| == 518 && RoundTrips(0, 0, pose)
  {
    var pose := HugePose(Fixed(false, 0));
    ZeroIsKept();
    HugeTextLength(pose.az);
    RoundTripIff(0, 0, pose);
  }

  // ---------- the format ----------

  /** The text as the format string spells it: ids, position, rotation, velocity, angular velocity, and the time 0. */
  lemma TextParts(pid: u16, vid: byte, p: Pose<Fixed>)
    ensures COLON == 0x3A
    ensures Split(FullText(pid, vid, p))
            == [IdText(pid, vid), Print(p.px), Print(p.py), Print(p.pz),
                Print(p.rx), Print(p.ry), Print(p.rz), Print(p.rw),
                Print(p.vx), Print(p.vy), Print(p.vz), Print(p.ax), Print(p.ay), Print(p.az), [ZERO]]
  {
    hide Print, IdText, Split;
    FullTextSplits(pid, vid, p);
    PrintAllInOrder(Components(p));
  }

  lemma FullTextSplits(pid: u16, vid: byte, p: Pose<Fixed>)
    ensures Split(FullText(pid, vid, p)) == [IdText(pid, vid)] + PrintAll(Components(p)) + [[ZERO]]
  {
    PartsArePlain(pid, vid, p);
    SplitJoinTail(Parts(pid, vid, p), [ZERO]);
    SplitPlain([ZERO]);
    assert FullText(pid, vid, p) == Join(Parts(pid, vid, p)) + [COLON] + [ZERO];
  }

  lemma PrintAllInOrder(xs: seq<Fixed>)
    requires |xs| == 13
    ensures PrintAll(xs) == [Print(xs[0]), Print(xs[1]), Print(xs[2]), Print(xs[3]), Print(xs[4]), Print(xs[5]),
                             Print(xs[6]), Print(xs[7]), Print(xs[8]), Print(xs[9]), Print(xs[10]), Print(xs[11]),
                             Print(xs[12])]
  {
    hide Print, PrintAll;
    forall i | 0 <= i < 13 ensures PrintAll(xs)[i] == Print(xs[i]) { PrintAllAt(xs, i); }
  }

  lemma {:induction false} ReadAllIff(parts: seq<text>)
    ensures ReadAll(parts).Some? <==> forall i :: 0 <= i < |parts| ==> Stof(parts[i]).Some?
    ensures ReadAll(parts).Some? ==> forall i :: 0 <= i < |parts| ==> ReadAll(parts).value[i] == Stof(parts[i]).value
  {
    hide Stof;
    if parts != [] { ReadAllIff(parts[..|parts| - 1]); }
  }

  /** Ids in front of and behind the first minus, cut to their width. */
  lemma IdsRead(a: text, b: text)
    requires MINUS !in a
    ensures ParseIds(a + [MINUS] + b)
            == if Stoi(a).Some? && Stoi(b).Some? then Some(Ids(Stoi(a).value % 0x1_0000, Stoi(b).value % 0x100)) else None
  {
    hide Stoi;
    var part := a + [MINUS] + b;
    ToMinusFirst(a, b);
    assert part[..|a|] == a && part[|a| + 1..] == b;
  }

  lemma {:induction false} NoMinus(part: text)
    requires MINUS !in part
    ensures ToMinus(part) == |part|
  {
    if part != [] {
      assert part[0] in part;
      NoMinus(part[1..]);
    }
  }

  /**
   What any text of at least fourteen parts is read as: rejected if the ids, one of
   the thirteen numbers or a time that is there cannot be read; otherwise every field
   is what its own part says, in the order of the format.
   */
  lemma ReadsParts(parts: seq<text>, a: text, b: text)
    requires |parts| >= 14 && AllPlain(parts) && parts[|parts| - 1] != []
    requires parts[0] == a + [MINUS] + b && MINUS !in a
    ensures var r := ParseTransform(Join(parts));
            && (r.Some? <==> Stoi(a).Some? && Stoi(b).Some? && (forall i :: 1 <= i < 14 ==> Stof(parts[i]).Some?)
                             && (|parts| > 14 ==> Stof(parts[14]).Some?))
            && (r.Some? ==> r.value == FieldsOf(parts, a, b))
  {
    hide Stof, Stoi, Split, Join, ParseIds, ReadAll;
    SplitJoin(parts);
    IdsRead(a, b);
    ReadAllIff(parts[1..14]);
  }

  /** The number a part spells, if it spells one. */
  function NumberOf(part: text): Number
  {
    if Stof(part).Some? then Stof(part).value else NO_TIME
  }

  function FieldsOf(parts: seq<text>, a: text, b: text): Transform
    requires |parts| >= 14 && Stoi(a).Some? && Stoi(b).Some?
  {
    var n := (i: nat) requires i < |parts| => NumberOf(parts[i]);
    Transform(Stoi(a).value % 0x1_0000, Stoi(b).value % 0x100,
              Pose(n(1), n(2), n(3), n(4), n(5), n(6), n(7), n(8), n(9), n(10), n(11), n(12), n(13)),
              if |parts| > 14 then n(14) else NO_TIME)
  }

  /** Fewer parts, or no minus between the ids, and the text is rejected. */
  lemma RejectsParts(parts: seq<text>)
    requires parts != [] && AllPlain(parts) && parts[|parts| - 1] != []
    requires |parts| < 14 || MINUS !in parts[0]
    ensures ParseTransform(Join(parts)) == None
  {
    SplitJoin(parts);
    if |parts| >= 14 { NoMinus(parts[0]); }
  }
}
