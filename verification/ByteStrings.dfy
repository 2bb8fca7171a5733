/** Byte strings, Python slicing, and big-endian numbers. */
module ByteStrings {

  type byte = b: int | 0 <= b < 256
  type Bytes = seq<byte>

  /** The Python slice `s[lo:hi]`: both ends are clamped to the length. */
  function Slice<T>(s: seq<T>, lo: nat, hi: nat): (r: seq<T>)
    ensures lo <= hi <= |s| ==> r == s[lo..hi]
    ensures lo <= |s| < hi ==> r == s[lo..]
    ensures lo >= hi || lo >= |s| ==> r == []
    ensures |r| <= |s|
    ensures lo <= hi ==> |r| <= hi - lo
  {
    var to := if hi <= |s| then hi else |s|;
    if lo <= to then s[lo..to] else []
  }

  /** `int.from_bytes(s, "big")`, which is 0 on the empty string. */
  function BigEndian(s: Bytes): nat {
    if s == [] then 0 else BigEndian(s[..|s| - 1]) * 256 + s[|s| - 1]
  }

  function Pow256(n: nat): (p: nat)
    ensures p > 0
  {
    if n == 0 then 1 else 256 * Pow256(n - 1)
  }

  /** `v.to_bytes(w, "big")`. */
  function ToBytes(v: nat, w: nat): (s: Bytes)
    requires v < Pow256(w)
    ensures |s| == w && BigEndian(s) == v
    decreases w
  {
    if w == 0 then [] else
      var s := ToBytes(v / 256, w - 1) + [v % 256];
      assert s[..|s| - 1] == ToBytes(v / 256, w - 1);
      s
  }

  lemma {:induction false} BigEndianBound(s: Bytes)
    ensures BigEndian(s) < Pow256(|s|)
  {
    if s != [] {
      BigEndianBound(s[..|s| - 1]);
    }
  }

  lemma {:induction false} ToBytesOfBigEndian(s: Bytes)
    ensures BigEndian(s) < Pow256(|s|)
    ensures ToBytes(BigEndian(s), |s|) == s
  {
    BigEndianBound(s);
    if s != [] {
      var front, last := s[..|s| - 1], s[|s| - 1];
      ToBytesOfBigEndian(front);
      LastByte(BigEndian(front), last);
      assert s == front + [last];
    }
  }

  lemma LastByte(high: nat, low: nat)
    requires low < 256
    ensures (high * 256 + low) / 256 == high && (high * 256 + low) % 256 == low
  {
  }

  lemma {:induction false} BigEndianAppend(a: Bytes, b: Bytes)
    ensures BigEndian(a + b) == BigEndian(a) * Pow256(|b|) + BigEndian(b)
  {
    if b == [] {
      assert a + b == a;
    } else {
      var front := b[..|b| - 1];
      assert (a + b)[..|a + b| - 1] == a + front;
      BigEndianAppend(a, front);
      MulSteps(BigEndian(a), Pow256(|front|), BigEndian(front), b[|b| - 1]);
    }
  }

  lemma MulSteps(x: nat, p: nat, y: nat, d: nat)
    ensures (x * p + y) * 256 + d == x * (256 * p) + (y * 256 + d)
  {
  }

  lemma Pow256Values()
    ensures Pow256(0) == 1 && Pow256(1) == 256 && Pow256(2) == 0x1_0000 && Pow256(3) == 0x100_0000
    ensures Pow256(4) == 0x1_0000_0000 && Pow256(7) == 0x100_0000_0000_0000
    ensures Pow256(8) == 0x1_0000_0000_0000_0000
  {
    assert Pow256(3) == 256 * Pow256(2);
    assert Pow256(5) == 256 * Pow256(4);
    assert Pow256(7) == 256 * Pow256(6);
  }

  /** Slicing inside one part of a concatenation. */
  lemma SliceMiddle<T>(a: seq<T>, b: seq<T>, c: seq<T>)
    ensures Slice(a + b + c, |a|, |a| + |b|) == b
  {
    assert (a + b + c)[|a|..|a| + |b|] == b;
  }

  /** Six parts in a row, grouped around each of the middle ones. */
  lemma Regroup<T>(a: seq<T>, b: seq<T>, c: seq<T>, d: seq<T>, e: seq<T>, f: seq<T>)
    ensures a + (b + c + d + e) + f == a + b + (c + d + e + f)
    ensures a + (b + c + d + e) + f == (a + b) + c + (d + e + f)
    ensures a + (b + c + d + e) + f == (a + b + c) + d + (e + f)
    ensures a + (b + c + d + e) + f == (a + b + c + d) + e + f
  {
  }
}
