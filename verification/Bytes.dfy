/** Bytes, fixed-width unsigned integers and their little-endian layouts. */
module Bytes {
  type byte = x: int | 0 <= x < 0x100
  type u16 = x: int | 0 <= x < 0x1_0000
  type u32 = x: int | 0 <= x < 0x1_0000_0000

  datatype Option<+T> = None | Some(value: T)

  /** How many numbers `width` bytes can hold. */
  function Range(width: nat): (r: nat)
    ensures r >= 1
  {
    if width == 0 then 1 else 0x100 * Range(width - 1)
  }

  /** The lowest `width` bytes of `n`, lowest first. */
  function LittleEndian(n: nat, width: nat): (s: seq<byte>)
    ensures |s| == width
    decreases n, width
  {
    if width == 0 then [] else [n % 0x100] + LittleEndian(n / 0x100, width - 1)
  }

  function FromLittleEndian(s: seq<byte>): (n: nat)
    ensures n < Range(|s|)
  {
    if s == [] then 0 else s[0] as int + 0x100 * FromLittleEndian(s[1..])
  }

  /** The bytes of 16-bit, 24-bit and 32-bit numbers, one by one. */
  lemma LittleEndianBytes(n: nat)
    ensures LittleEndian(n, 1) == [n % 0x100]
    ensures LittleEndian(n, 2) == [n % 0x100, n / 0x100 % 0x100]
    ensures LittleEndian(n, 3) == [n % 0x100, n / 0x100 % 0x100, n / 0x1_0000 % 0x100]
    ensures LittleEndian(n, 4) == [n % 0x100, n / 0x100 % 0x100, n / 0x1_0000 % 0x100, n / 0x100_0000 % 0x100]
  {
    NextByte(n, 0);
    NextByte(n, 1);
    NextByte(n, 2);
    NextByte(n, 3);
    var a := n / 0x100;
    NextByte(a, 0);
    NextByte(a, 1);
    NextByte(a, 2);
    var b := a / 0x100;
    NextByte(b, 0);
    NextByte(b, 1);
    NextByte(b / 0x100, 0);
    assert b == n / 0x1_0000 && b / 0x100 == n / 0x100_0000;
  }

  lemma NextByte(n: nat, width: nat)
    ensures LittleEndian(n, width + 1) == [n % 0x100] + LittleEndian(n / 0x100, width)
    ensures LittleEndian(n, 0) == []
  {
  }

  lemma {:induction false} DecodeEncode(n: nat, width: nat)
    requires n < Range(width)
    ensures FromLittleEndian(LittleEndian(n, width)) == n
    decreases width
  {
    if width == 0 {
    } else {
      var s := LittleEndian(n, width);
      assert s[1..] == LittleEndian(n / 0x100, width - 1);
      DecodeEncode(n / 0x100, width - 1);
    }
  }

  lemma {:induction false} EncodeDecode(s: seq<byte>)
    ensures LittleEndian(FromLittleEndian(s), |s|) == s
  {
    if s == [] {
    } else {
      EncodeDecode(s[1..]);
      var high := FromLittleEndian(s[1..]);
      assert (s[0] as int + 0x100 * high) / 0x100 == high;
      assert s == [s[0]] + s[1..];
    }
  }

  lemma Ranges()
    ensures Range(1) == 0x100 && Range(2) == 0x1_0000
    ensures Range(3) == 0x100_0000 && Range(4) == 0x1_0000_0000
  {
  }

  /** Concatenation of a list of chunks. */
  function Flatten<T>(chunks: seq<seq<T>>): seq<T>
  {
    if chunks == [] then [] else chunks[0] + Flatten(chunks[1..])
  }

  lemma {:induction false} FlattenAppend<T>(a: seq<seq<T>>, b: seq<seq<T>>)
    ensures Flatten(a + b) == Flatten(a) + Flatten(b)
  {
    if a == [] {
      assert a + b == b;
    } else {
      FlattenAppend(a[1..], b);
      assert (a + b)[1..] == a[1..] + b;
      Associates(a[0], Flatten(a[1..]), Flatten(b));
    }
  }

  lemma Associates<T>(a: seq<T>, b: seq<T>, c: seq<T>)
    ensures (a + b) + c == a + (b + c)
  {
  }

  lemma CutAt<T>(s: seq<T>, k: nat)
    requires k <= |s|
    ensures s == s[..k] + s[k..]
  {
  }

  lemma FrontOf<T>(a: seq<T>, b: seq<T>)
    ensures (a + b)[..|a|] == a && (a + b)[|a|..] == b
  {
  }

  lemma PutAndRemove<K, V>(m: map<K, V>, k: K, v: V)
    ensures m[k := v] - {k} == m - {k}
    ensures k !in m ==> m - {k} == m
  {
  }

  /** The elements that satisfy `p`, in order. */
  function Filter<T>(p: T -> bool, s: seq<T>): seq<T>
  {
    if s == [] then [] else (if p(s[0]) then [s[0]] else []) + Filter(p, s[1..])
  }

  lemma {:induction false} FilterAppend<T>(p: T -> bool, a: seq<T>, b: seq<T>)
    ensures Filter(p, a + b) == Filter(p, a) + Filter(p, b)
  {
    if a == [] {
      assert a + b == b;
    } else {
      FilterAppend(p, a[1..], b);
      assert (a + b)[1..] == a[1..] + b;
      Associates(if p(a[0]) then [a[0]] else [], Filter(p, a[1..]), Filter(p, b));
    }
  }

  lemma FilterFrom<T>(p: T -> bool, s: seq<T>, i: nat)
    requires i < |s|
    ensures Filter(p, s[i..]) == (if p(s[i]) then [s[i]] else []) + Filter(p, s[i + 1..])
  {
    assert s[i..][1..] == s[i + 1..];
  }

  lemma FilterOne<T>(p: T -> bool, x: T)
    ensures Filter(p, [x]) == if p(x) then [x] else []
  {
  }

  /** Erasing from a vector, in one pass, what does not satisfy `p`. */
  method Keep<T>(p: T -> bool, s: seq<T>) returns (kept: seq<T>)
    ensures kept == Filter(p, s)
  {
    kept := [];
    for i := 0 to |s|
      invariant kept + Filter(p, s[i..]) == Filter(p, s)
    {
      FilterFrom(p, s, i);
      if p(s[i]) { kept := kept + [s[i]]; }
    }
  }

  lemma {:induction false} FilterMembers<T>(p: T -> bool, s: seq<T>)
    ensures forall x :: x in Filter(p, s) <==> x in s && p(x)
  {
    if s != [] {
      FilterMembers(p, s[1..]);
      assert s == [s[0]] + s[1..];
    }
  }
}
