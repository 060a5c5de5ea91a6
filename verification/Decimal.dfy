/** Decimal text: the conversions `%d`, `%.6f`, `stoi` and `stof` as far as the transform format uses them. */
module Decimal {
  import opened Bytes

  type text = seq<byte>

  const ZERO: byte := '0' as int
  const MINUS: byte := '-' as int
  const PLUS: byte := '+' as int
  const DOT: byte := '.' as int

  predicate IsDigit(c: byte)
  {
    ZERO <= c <= ZERO + 9
  }

  predicate IsSpace(c: byte)
  {
    c == ' ' as int || 9 <= c <= 13
  }

  predicate AllDigits(s: text)
  {
    forall i :: 0 <= i < |s| ==> IsDigit(s[i])
  }

  function Pow10(n: nat): (p: nat)
    ensures p >= 1
  {
    if n == 0 then 1 else 10 * Pow10(n - 1)
  }

  // ---------- printing ----------

  /** `%d` of a natural number. */
  function Digits(n: nat): (s: text)
    ensures AllDigits(s) && |s| >= 1
  {
    if n < 10 then [ZERO + n] else Digits(n / 10) + [ZERO + n % 10]
  }

  /** The last `width` decimal digits of `n`. */
  function Padded(n: nat, width: nat): (s: text)
    ensures AllDigits(s) && |s| == width
    decreases width
  {
    if width == 0 then [] else Padded(n / 10, width - 1) + [ZERO + n % 10]
  }

  /** A sign and a number of millionths: the values `%.6f` prints, negative zero among them. */
  datatype Fixed = Fixed(negative: bool, millionths: nat)

  const PLACES: nat := 6
  const MILLION: nat := 1_000_000

  function Sign(x: Fixed): text
  {
    if x.negative then [MINUS] else []
  }

  /** `%.6f`. */
  function Print(x: Fixed): text
  {
    Sign(x) + Digits(x.millionths / MILLION) + [DOT] + Padded(x.millionths % MILLION, PLACES)
  }

  // ---------- reading ----------

  /** The number a string of digits stands for. */
  function Value(s: text): nat
    requires AllDigits(s)
  {
    if s == [] then 0 else 10 * Value(s[..|s| - 1]) + (s[|s| - 1] - ZERO)
  }

  /** The length of the longest front part that is all digits. */
  function Span(s: text): (n: nat)
    ensures n <= |s| && AllDigits(s[..n])
    ensures n < |s| ==> !IsDigit(s[n])
  {
    if s == [] || !IsDigit(s[0]) then 0
    else
      var n := Span(s[1..]);
      assert s[..n + 1] == [s[0]] + s[1..][..n];
      n + 1
  }

  function SkipSpace(s: text): text
  {
    if s != [] && IsSpace(s[0]) then SkipSpace(s[1..]) else s
  }

  datatype Signed = Signed(negative: bool, rest: text)

  function TakeSign(s: text): Signed
  {
    if s != [] && s[0] == MINUS then Signed(true, s[1..])
    else if s != [] && s[0] == PLUS then Signed(false, s[1..])
    else Signed(false, s)
  }

  /** `None` stands for the exceptions: no conversion possible, or out of the range of a 32-bit int. */
  function Stoi(s: text): Option<int>
  {
    var t := TakeSign(SkipSpace(s));
    var n := Span(t.rest);
    var v: int := Value(t.rest[..n]);
    var r: int := if t.negative then -v else v;
    if n == 0 || r < -0x8000_0000 || r > 0x7FFF_FFFF then None else Some(r)
  }

  /** The exact decimal a text spells: digits, and how many of them follow the point. */
  datatype Number = Number(negative: bool, digits: nat, scale: nat)

  function Stof(s: text): Option<Number>
  {
    var t := TakeSign(SkipSpace(s));
    var n := Span(t.rest);
    var whole := t.rest[..n];
    var fraction := if n < |t.rest| && t.rest[n] == DOT
                    then t.rest[n + 1..][..Span(t.rest[n + 1..])] else [];
    if whole + fraction == [] then None
    else Some(Number(t.negative, Value(whole + fraction), |fraction|))
  }

  // ---------- digits ----------

  lemma {:induction false} ValueAppend(a: text, b: text)
    requires AllDigits(a) && AllDigits(b)
    ensures Value(a + b) == Value(a) * Pow10(|b|) + Value(b)
  {
    if b == [] {
      assert a + b == a;
    } else {
      var c := b[..|b| - 1];
      ValueAppend(a, c);
      assert (a + b)[..|a + b| - 1] == a + c;
      assert Value(a) * Pow10(|b|) == 10 * (Value(a) * Pow10(|c|));
    }
  }

  lemma {:induction false} ValueDigits(n: nat)
    ensures Value(Digits(n)) == n
  {
    if n >= 10 {
      ValueDigits(n / 10);
      assert Digits(n)[..|Digits(n)| - 1] == Digits(n / 10);
    }
  }

  lemma {:induction false} ValuePadded(n: nat, width: nat)
    requires n < Pow10(width)
    ensures Value(Padded(n, width)) == n
    decreases width
  {
    if width > 0 {
      ValuePadded(n / 10, width - 1);
      assert Padded(n, width)[..width - 1] == Padded(n / 10, width - 1);
    }
  }

  lemma {:induction false} DigitsLength(n: nat, width: nat)
    requires n < Pow10(width) && width >= 1
    ensures |Digits(n)| <= width
  {
    if n >= 10 {
      DigitsLength(n / 10, width - 1);
    }
  }

  lemma {:induction false} SpanDigits(digits: text, tail: text)
    requires AllDigits(digits)
    requires tail == [] || !IsDigit(tail[0])
    ensures Span(digits + tail) == |digits|
  {
    if digits == [] {
      assert digits + tail == tail;
    } else {
      assert (digits + tail)[1..] == digits[1..] + tail;
      SpanDigits(digits[1..], tail);
    }
  }

  // ---------- round trips ----------

  lemma StoiDigits(n: nat)
    requires n <= 0x7FFF_FFFF
    ensures Stoi(Digits(n)) == Some(n)
  {
    var s := Digits(n);
    assert s + [] == s;
    SpanDigits(s, []);
    ValueDigits(n);
    assert IsDigit(s[0]);
    assert s[..|s|] == s;
  }

  /** A printed number reads back as its sign, its digits and six places. */
  lemma StofPrint(x: Fixed)
    ensures Stof(Print(x)) == Some(Number(x.negative, x.millionths, PLACES))
  {
    var i, f := Digits(x.millionths / MILLION), Padded(x.millionths % MILLION, PLACES);
    StofParts(x.negative, i, f);
    ValueOfParts(x.millionths);
  }

  lemma ValueOfParts(n: nat)
    ensures Value(Digits(n / MILLION) + Padded(n % MILLION, PLACES)) == n
  {
    ValueAppend(Digits(n / MILLION), Padded(n % MILLION, PLACES));
    ValueDigits(n / MILLION);
    SixPlaces();
    ValuePadded(n % MILLION, PLACES);
  }

  lemma SixPlaces()
    ensures Pow10(PLACES) == MILLION
  {
  }

  lemma StofParts(negative: bool, i: text, f: text)
    requires AllDigits(i) && AllDigits(f) && i != []
    ensures var sign := if negative then [MINUS] else [];
            Stof(sign + i + [DOT] + f) == Some(Number(negative, Value(i + f), |f|))
  {
    var sign := if negative then [MINUS] else [];
    var s := sign + i + [DOT] + f;
    var body := i + ([DOT] + f);
    assert IsDigit(i[0]);
    assert s == sign + body;
    assert SkipSpace(s) == s;
    assert TakeSign(s) == Signed(negative, body);
    SpanDigits(i, [DOT] + f);
    assert body[..|i|] == i && body[|i| + 1..] == f;
    SpanDigits(f, []);
    assert f + [] == f && f[..|f|] == f;
  }

  /** A sign and digits alone read with no places. */
  lemma StofWhole(negative: bool, i: text)
    requires AllDigits(i) && i != []
    ensures Stof((if negative then [MINUS] else []) + i) == Some(Number(negative, Value(i), 0))
  {
    var s := (if negative then [MINUS] else []) + i;
    assert IsDigit(i[0]);
    assert SkipSpace(s) == s;
    assert TakeSign(s) == Signed(negative, i);
    assert i + [] == i;
    SpanDigits(i, []);
    assert i[..|i|] == i;
  }

  // ---------- numbers cut short ----------

  /** The number read has the sign and the value that was printed, however many places it shows. */
  ghost predicate Denotes(n: Number, x: Fixed)
  {
    n.negative == x.negative && n.digits * MILLION == x.millionths * Pow10(n.scale)
  }

  /** The text reads as the number, in sign and value. */
  ghost predicate ReadsAs(s: text, x: Fixed)
  {
    Stof(s).Some? && Denotes(Stof(s).value, x)
  }

  /** What losing the last `lost` characters of the text leaves intact: only zeros and the point may go. */
  predicate KeepsValue(x: Fixed, lost: nat)
  {
    lost <= 7 && x.millionths % Pow10(if lost < PLACES then lost else PLACES) == 0
  }

  lemma PrintedDenotes(x: Fixed)
    ensures Denotes(Number(x.negative, x.millionths, PLACES), x)
  {
    SixPlaces();
  }

  lemma {:induction false} ValueBound(s: text)
    requires AllDigits(s)
    ensures Value(s) < Pow10(|s|)
  {
    if s != [] { ValueBound(s[..|s| - 1]); }
  }

  lemma {:induction false} ValuePositive(s: text)
    requires AllDigits(s) && s != [] && s[0] != ZERO
    ensures Value(s) >= 1
  {
    if |s| > 1 { ValuePositive(s[..|s| - 1]); }
  }

  /** No leading zero, except in "0" itself. */
  lemma {:induction false} DigitsLead(n: nat)
    ensures |Digits(n)| > 1 ==> Digits(n)[0] != ZERO
  {
    if n >= 10 {
      DigitsLead(n / 10);
      assert Digits(n)[0] == Digits(n / 10)[0];
    }
  }

  /** The text of a number without its last `lost` places. */
  lemma CutPlaces(x: Fixed, lost: nat)
    requires lost <= PLACES
    ensures var i, f := Digits(x.millionths / MILLION), Padded(x.millionths % MILLION, PLACES);
            Print(x)[..|Print(x)| - lost] == Sign(x) + i + [DOT] + f[..PLACES - lost]
  {
  }

  lemma CutValue(n: nat, lost: nat)
    requires lost <= PLACES
    ensures Value(Digits(n / MILLION) + Padded(n % MILLION, PLACES)[..PLACES - lost]) == n / Pow10(lost)
  {
    var i, f := Digits(n / MILLION), Padded(n % MILLION, PLACES);
    var g, h := f[..PLACES - lost], f[PLACES - lost..];
    assert f == g + h;
    Associates(i, g, h);
    ValueOfParts(n);
    ValueFront(i + g, h);
  }

  /** Dropping the last digits divides by a power of ten. */
  lemma ValueFront(a: text, b: text)
    requires AllDigits(a) && AllDigits(b) && |b| <= PLACES
    ensures Value(a) == Value(a + b) / Pow10(|b|)
  {
    ValueAppend(a, b);
    ValueBound(b);
    Quotient(Value(a), Value(b), |b|);
  }

  lemma Quotient(d: nat, r: nat, lost: nat)
    requires lost <= PLACES && r < Pow10(lost)
    ensures (d * Pow10(lost) + r) / Pow10(lost) == d
  {
    PowersOfTen();
    if lost == 0 {
    } else if lost == 1 {
    } else if lost == 2 {
    } else if lost == 3 {
    } else if lost == 4 {
    } else if lost == 5 {
    }
  }

  /** Losing up to six places: the rest stands for the printed value exactly if zeros were lost. */
  lemma PlacesLost(x: Fixed, lost: nat)
    requires lost <= PLACES
    ensures ReadsAs(Print(x)[..|Print(x)| - lost], x) <==> x.millionths % Pow10(lost) == 0
  {
    var i, f := Digits(x.millionths / MILLION), Padded(x.millionths % MILLION, PLACES);
    CutPlaces(x, lost);
    CutValue(x.millionths, lost);
    StofParts(x.negative, i, f[..PLACES - lost]);
    ExactIff(x.millionths, lost);
  }

  lemma ExactIff(n: nat, lost: nat)
    requires lost <= PLACES
    ensures n / Pow10(lost) * MILLION == n * Pow10(PLACES - lost) <==> n % Pow10(lost) == 0
  {
    PowersOfTen();
    if lost == 0 {
    } else if lost == 1 {
    } else if lost == 2 {
    } else if lost == 3 {
    } else if lost == 4 {
    } else if lost == 5 {
    }
  }

  lemma PowersOfTen()
    ensures Pow10(0) == 1 && Pow10(1) == 10 && Pow10(2) == 100 && Pow10(3) == 1000
    ensures Pow10(4) == 10000 && Pow10(5) == 100000 && Pow10(6) == 1000000
  {
  }

  /** Losing the point too, and `k` digits before it. */
  lemma WholeCut(x: Fixed, k: nat)
    requires k < |Digits(x.millionths / MILLION)|
    ensures var i := Digits(x.millionths / MILLION);
            var r := Stof(Sign(x) + i[..|i| - k]);
            && r.Some? && r.value.negative == x.negative && r.value.scale == 0
            && (r.value.digits == x.millionths / MILLION <==> k == 0)
  {
    var n := x.millionths / MILLION;
    var i := Digits(n);
    var j, tail := i[..|i| - k], i[|i| - k..];
    CutAt(i, |i| - k);
    DigitParts(j, tail);
    StofWhole(x.negative, j);
    ValueDigits(n);
    if k == 0 {
      assert tail == [] && j == i;
    } else {
      ValueAppend(j, tail);
      DigitsLead(n);
      ValuePositive(j);
      TenfoldLarger(Value(j), k, n, Value(tail));
    }
  }

  lemma DigitParts(a: text, b: text)
    ensures AllDigits(a + b) ==> AllDigits(a) && AllDigits(b)
  {
    if AllDigits(a + b) {
      forall i | 0 <= i < |a| ensures IsDigit(a[i]) { assert (a + b)[i] == a[i]; }
      forall i | 0 <= i < |b| ensures IsDigit(b[i]) { assert (a + b)[|a| + i] == b[i]; }
    }
  }

  lemma TenfoldLarger(j: nat, k: nat, i: nat, tail: nat)
    requires j >= 1 && k >= 1 && i == j * Pow10(k) + tail
    ensures i > j
  {
    assert Pow10(k) == 10 * Pow10(k - 1);
    assert j * Pow10(k) >= j * 10;
  }

  /** Losing the point keeps the value only if no digit before it goes and all places were zeros. */
  lemma PointLost(x: Fixed, lost: nat)
    requires PLACES < lost < |Print(x)|
    ensures ReadsAs(Print(x)[..|Print(x)| - lost], x) <==> KeepsValue(x, lost)
  {
    var k := lost - PLACES - 1;
    CutWhole(x, k);
    SixPlaces();
    if k < |Digits(x.millionths / MILLION)| {
      WholeCut(x, k);
      WholeDenotes(Stof(Print(x)[..|Print(x)| - lost]).value, x);
    } else {
      NoDigits(Print(x)[..|Print(x)| - lost]);
    }
  }

  lemma WholeDenotes(n: Number, x: Fixed)
    requires n.negative == x.negative && n.scale == 0
    ensures Denotes(n, x) <==> n.digits == x.millionths / MILLION && x.millionths % MILLION == 0
  {
    assert Pow10(0) == 1;
  }

  lemma CutWhole(x: Fixed, k: nat)
    requires k + PLACES + 1 < |Print(x)|
    ensures var i, cut := Digits(x.millionths / MILLION), Print(x)[..|Print(x)| - (k + PLACES + 1)];
            if k < |i| then cut == Sign(x) + i[..|i| - k] else cut == [] || cut == [MINUS]
  {
  }

  /** A printed number that lost its end still reads as itself exactly if only zeros and the point are gone. */
  lemma CutReadsIff(x: Fixed, lost: nat)
    requires lost < |Print(x)|
    ensures ReadsAs(Print(x)[..|Print(x)| - lost], x) <==> KeepsValue(x, lost)
  {
    if lost <= PLACES { PlacesLost(x, lost); } else { PointLost(x, lost); }
  }

  lemma NoDigits(s: text)
    requires s == [] || s == [MINUS]
    ensures Stof(s) == None
  {
    assert TakeSign(SkipSpace(s)).rest == [];
  }

  lemma {:induction false} DigitsExactLength(n: nat, width: nat)
    requires width >= 1 && n < Pow10(width) && (width > 1 ==> Pow10(width - 1) <= n)
    ensures |Digits(n)| == width
    decreases width
  {
    if width > 1 {
      assert Pow10(width - 1) == 10 * Pow10(width - 2);
      DigitsExactLength(n / 10, width - 1);
    }
  }

  // ---------- reading any text ----------

  /** White space in the C locale: tab, line feed, vertical tab, form feed, carriage return, blank. */
  const WHITE: set<byte> := {0x09, 0x0A, 0x0B, 0x0C, 0x0D, 0x20}

  ghost predicate AllSpaces(s: text)
  {
    forall i :: 0 <= i < |s| ==> s[i] in WHITE
  }

  ghost predicate IsSign(s: text)
  {
    s == [] || s == [MINUS] || s == [PLUS]
  }

  /** A text after white space starts neither with white space nor, unless a sign came before, with a sign. */
  ghost predicate Starts(sign: text, s: text)
  {
    s != [] ==> s[0] !in WHITE && (sign == [] ==> s[0] != MINUS && s[0] != PLUS)
  }

  lemma {:induction false} SkipsSpace(space: text, s: text)
    requires AllSpaces(space) && (s != [] ==> s[0] !in WHITE)
    ensures SkipSpace(space + s) == s
  {
    if space == [] {
      assert space + s == s;
    } else {
      assert (space + s)[1..] == space[1..] + s;
      SkipsSpace(space[1..], s);
    }
  }

  lemma SignTaken(space: text, sign: text, s: text)
    requires AllSpaces(space) && IsSign(sign) && Starts(sign, s)
    ensures TakeSign(SkipSpace(space + sign + s)) == Signed(sign == [MINUS], s)
  {
    Associates(space, sign, s);
    SkipsSpace(space, sign + s);
    if sign != [] { assert (sign + s)[1..] == s; } else { assert sign + s == s; }
  }

  /** `stoi` on white space, a sign, digits and anything else behind them: the number, if a 32-bit int holds it. */
  lemma StoiReads(space: text, sign: text, digits: text, tail: text)
    requires AllSpaces(space) && IsSign(sign) && AllDigits(digits) && digits != []
    requires tail == [] || !IsDigit(tail[0])
    ensures var n: int := Value(digits);
            var v := if sign == [MINUS] then -n else n;
            Stoi(space + sign + (digits + tail)) == if -2_147_483_648 <= v <= 2_147_483_647 then Some(v) else None
  {
    StartsWithDigit(sign, digits, tail);
    SignTaken(space, sign, digits + tail);
    StoiGiven(space + sign + (digits + tail), sign == [MINUS], digits, tail);
  }

  lemma StartsWithDigit(sign: text, digits: text, tail: text)
    requires AllDigits(digits) && digits != []
    ensures Starts(sign, digits + tail)
  {
    assert IsDigit(digits[0]) && (digits + tail)[0] == digits[0];
  }

  lemma StoiGiven(s: text, negative: bool, digits: text, tail: text)
    requires TakeSign(SkipSpace(s)) == Signed(negative, digits + tail)
    requires AllDigits(digits) && digits != [] && (tail == [] || !IsDigit(tail[0]))
    ensures var n: int := Value(digits);
            var v := if negative then -n else n;
            Stoi(s) == if -2_147_483_648 <= v <= 2_147_483_647 then Some(v) else None
  {
    hide TakeSign, SkipSpace, Value;
    SpanDigits(digits, tail);
    FrontOf(digits, tail);
  }

  /** Without a digit behind white space and sign there is no number. */
  lemma StoiRejects(space: text, sign: text, tail: text)
    requires AllSpaces(space) && IsSign(sign) && Starts(sign, tail)
    requires tail == [] || !IsDigit(tail[0])
    ensures Stoi(space + sign + tail) == None && (tail == [] || tail[0] != DOT ==> Stof(space + sign + tail) == None)
  {
    SignTaken(space, sign, tail);
    assert [] + tail == tail;
    SpanDigits([], tail);
  }

  /** `stof` on white space, a sign, digits, a point and more digits, at least one in all; exponents aside. */
  lemma StofReads(space: text, sign: text, digits: text, fraction: text, tail: text)
    requires AllSpaces(space) && IsSign(sign) && AllDigits(digits) && AllDigits(fraction) && digits + fraction != []
    requires tail == [] || !IsDigit(tail[0])
    ensures Stof(space + sign + (digits + ([DOT] + (fraction + tail))))
            == Some(Number(sign == [MINUS], Value(digits + fraction), |fraction|))
  {
    var rest := digits + ([DOT] + (fraction + tail));
    assert digits != [] ==> IsDigit(digits[0]) && rest[0] == digits[0];
    assert digits == [] ==> rest[0] == DOT;
    SignTaken(space, sign, rest);
    StofGiven(space + sign + rest, sign == [MINUS], digits, fraction, tail);
  }

  lemma StofGiven(s: text, negative: bool, digits: text, fraction: text, tail: text)
    requires TakeSign(SkipSpace(s)) == Signed(negative, digits + ([DOT] + (fraction + tail)))
    requires AllDigits(digits) && AllDigits(fraction) && digits + fraction != [] && (tail == [] || !IsDigit(tail[0]))
    ensures Stof(s) == Some(Number(negative, Value(digits + fraction), |fraction|))
  {
    hide TakeSign, SkipSpace, Value, Span;
    var rest := digits + ([DOT] + (fraction + tail));
    SpanDigits(digits, [DOT] + (fraction + tail));
    FrontOf(digits, [DOT] + (fraction + tail));
    SpanDigits(fraction, tail);
    FrontOf(fraction, tail);
    assert Span(rest) == |digits| && rest[..|digits|] == digits && rest[|digits|] == DOT;
    assert rest[|digits| + 1..] == fraction + tail;
    assert Span(fraction + tail) == |fraction| && (fraction + tail)[..|fraction|] == fraction;
  }

  /** Without a point the number has no places. */
  lemma StofReadsWhole(space: text, sign: text, digits: text, tail: text)
    requires AllSpaces(space) && IsSign(sign) && AllDigits(digits) && digits != []
    requires tail == [] || (!IsDigit(tail[0]) && tail[0] != DOT)
    ensures Stof(space + sign + (digits + tail)) == Some(Number(sign == [MINUS], Value(digits), 0))
  {
    StartsWithDigit(sign, digits, tail);
    SignTaken(space, sign, digits + tail);
    SpanDigits(digits, tail);
    FrontOf(digits, tail);
    assert digits + [] == digits;
  }

  /** "-1.050000", character by character. */
  lemma PrintedText()
    ensures Print(Fixed(true, 1_050_000)) == [0x2D, 0x31, 0x2E, 0x30, 0x35, 0x30, 0x30, 0x30, 0x30]
  {
    PaddedText();
    assert Digits(1) == [ZERO + 1];
  }

  lemma PaddedText()
    ensures Padded(50_000, 6) == [0x30, 0x35, 0x30, 0x30, 0x30, 0x30]
  {
    PaddedFront();
    assert Padded(50_000, 6) == Padded(5_000, 5) + [ZERO];
    assert Padded(5_000, 5) == Padded(500, 4) + [ZERO];
    assert Padded(500, 4) == Padded(50, 3) + [ZERO];
  }

  lemma PaddedFront()
    ensures Padded(50, 3) == [0x30, 0x35, 0x30]
  {
    assert Padded(50, 3) == Padded(5, 2) + [ZERO];
    assert Padded(5, 2) == Padded(0, 1) + [ZERO + 5];
    assert Padded(0, 1) == Padded(0, 0) + [ZERO];
  }
}
