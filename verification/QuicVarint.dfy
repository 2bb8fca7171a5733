/** QUIC variable-length integers (section 16 of RFC 9000). */
module QuicVarint {
  import opened Wrappers
  import opened ByteStrings

  /** The exceptions the parsers raise; the router treats all three alike. */
  datatype ParseError = QuicParseError | IndexError | UnicodeError

  /** A decoded number and the offset just after it. */
  datatype Read = Read(value: nat, next: nat)

  /** The two top bits of the first byte give the width: 1, 2, 4 or 8. */
  function Width(first: byte): (w: nat)
    ensures w in {1, 2, 4, 8}
  {
    match first / 64
    case 0 => 1
    case 1 => 2
    case 2 => 4
    case _ => 8
  }

  function Varint(data: Bytes, offset: nat): (r: Result<Read, ParseError>)
    ensures r.Ok? ==> offset < r.value.next <= |data|
  {
    if offset >= |data| || offset + Width(data[offset]) > |data| then
      Err(QuicParseError)
    else
      var next := offset + Width(data[offset]);
      Ok(Read(BigEndian([data[offset] % 64] + data[offset + 1..next]), next))
  }

  method ReadVarint(data: Bytes, offset: nat) returns (r: Result<Read, ParseError>)
    ensures r == Varint(data, offset)
  {
    if offset >= |data| {
      return Err(QuicParseError);
    }
    var size := Width(data[offset]);
    if offset + size > |data| {
      return Err(QuicParseError);
    }
    var value: nat := data[offset] % 64;
    var i := offset + 1;
    assert BigEndian([data[offset] % 64]) == value by {
      assert [data[offset] % 64][..0] == [];
    }
    assert [data[offset] % 64] + data[offset + 1..i] == [data[offset] % 64];
    while i < offset + size
      invariant offset + 1 <= i <= offset + size
      invariant value == BigEndian([data[offset] % 64] + data[offset + 1..i])
    {
      var read := [data[offset] % 64] + data[offset + 1..i + 1];
      assert read[..|read| - 1] == [data[offset] % 64] + data[offset + 1..i];
      assert read[|read| - 1] == data[i];
      value := value * 256 + data[i];
      i := i + 1;
    }
    r := Ok(Read(value, offset + size));
  }

  /** Values a `w`-byte encoding can hold: all but the two length bits. */
  predicate Fits(v: nat, w: nat) {
    w in {1, 2, 4, 8} && v < 64 * Pow256(w - 1)
  }

  function LengthBits(w: nat): nat {
    if w == 1 then 0 else if w == 2 then 1 else if w == 4 then 2 else 3
  }

  function EncodeVarint(v: nat, w: nat): (s: Bytes)
    requires Fits(v, w)
    ensures |s| == w
  {
    var p := Pow256(w - 1);
    DivBound(v, p, 64);
    [64 * LengthBits(w) + v / p] + ToBytes(v % p, w - 1)
  }

  lemma DivBound(v: nat, p: nat, k: nat)
    requires p > 0 && v < k * p
    ensures 0 <= v / p < k
  {
  }

  /** A two-part number: `high` above `w` low bytes. */
  lemma HeadAndTail(high: byte, low: Bytes)
    ensures BigEndian([high] + low) == high * Pow256(|low|) + BigEndian(low)
  {
    BigEndianAppend([high], low);
    assert [high][..0] == [];
    assert BigEndian([high]) == high;
  }

  lemma EncodableBelow62Bits(v: nat, w: nat)
    ensures v < 0x4000_0000_0000_0000 <==> Fits(v, 8)
    ensures Fits(v, w) ==> Fits(v, 8)
  {
    Pow256Values();
  }

  lemma EncodingReadsBack(v: nat, w: nat, before: Bytes, after: Bytes)
    requires Fits(v, w)
    ensures Varint(before + EncodeVarint(v, w) + after, |before|) == Ok(Read(v, |before| + w))
  {
    hide BigEndian, ToBytes, Pow256;
    var p := Pow256(w - 1);
    var code := EncodeVarint(v, w);
    var data := before + code + after;
    DivBound(v, p, 64);
    var high, low := v / p, ToBytes(v % p, w - 1);
    FirstByte(high, w);
    assert data[|before|] == code[0];
    assert data[|before| + 1..|before| + w] == low;
    HeadAndTail(high, low);
    DivMod(v, p);
  }

  /** The values that have an encoding are exactly those below 2^62, and reading any of their encodings gives them back. */
  lemma VarintRoundTrip(v: nat, w: nat, before: Bytes, after: Bytes)
    ensures v < 0x4000_0000_0000_0000 <==> Fits(v, 8)
    ensures Fits(v, w) ==>
              && v < 0x4000_0000_0000_0000
              && Varint(before + EncodeVarint(v, w) + after, |before|) == Ok(Read(v, |before| + w))
  {
    EncodableBelow62Bits(v, w);
    if Fits(v, w) {
      hide Varint, EncodeVarint;
      EncodingReadsBack(v, w, before, after);
    }
  }

  lemma VarintIs(data: Bytes, digits: Bytes)
    requires data != [] && |data| == Width(data[0]) && digits == [data[0] % 64] + data[1..]
    ensures Varint(data, 0) == Ok(Read(BigEndian(digits), |data|))
  {
    hide BigEndian;
    assert data[1..|data|] == data[1..];
  }

  /** The examples of section A.1 of RFC 9000. */
  lemma KnownVarints()
    ensures Varint([0x9d, 0x7f, 0x3e, 0x7d], 0) == Ok(Read(494_878_333, 4))
    ensures Varint([0x7b, 0xbd], 0) == Ok(Read(15_293, 2))
    ensures Varint([0x25], 0) == Ok(Read(37, 1)) && Varint([0x40, 0x25], 0) == Ok(Read(37, 2))
  {
    hide Varint, BigEndian;
    OneByte(0x1d);
    OneByte(0x3b);
    OneByte(0x00);
    OneByte(0x25);
    BytesAre([0x1d], 0x7f, [0x1d, 0x7f]);
    BytesAre([0x1d, 0x7f], 0x3e, [0x1d, 0x7f, 0x3e]);
    BytesAre([0x1d, 0x7f, 0x3e], 0x7d, [0x1d, 0x7f, 0x3e, 0x7d]);
    BytesAre([0x3b], 0xbd, [0x3b, 0xbd]);
    BytesAre([0x00], 0x25, [0x00, 0x25]);
    VarintIs([0x9d, 0x7f, 0x3e, 0x7d], [0x1d, 0x7f, 0x3e, 0x7d]);
    VarintIs([0x7b, 0xbd], [0x3b, 0xbd]);
    VarintIs([0x25], [0x25]);
    VarintIs([0x40, 0x25], [0x00, 0x25]);
  }

  lemma KnownLongVarint()
    ensures Varint([0xc2, 0x19, 0x7c, 0x5e, 0xff, 0x14, 0xe8, 0x8c], 0) == Ok(Read(151_288_809_941_952_652, 8))
  {
    hide Varint, BigEndian;
    OneByte(0x02);
    BytesAre([0x02], 0x19, [0x02, 0x19]);
    BytesAre([0x02, 0x19], 0x7c, [0x02, 0x19, 0x7c]);
    BytesAre([0x02, 0x19, 0x7c], 0x5e, [0x02, 0x19, 0x7c, 0x5e]);
    BytesAre([0x02, 0x19, 0x7c, 0x5e], 0xff, [0x02, 0x19, 0x7c, 0x5e, 0xff]);
    BytesAre([0x02, 0x19, 0x7c, 0x5e, 0xff], 0x14, [0x02, 0x19, 0x7c, 0x5e, 0xff, 0x14]);
    BytesAre([0x02, 0x19, 0x7c, 0x5e, 0xff, 0x14], 0xe8, [0x02, 0x19, 0x7c, 0x5e, 0xff, 0x14, 0xe8]);
    BytesAre([0x02, 0x19, 0x7c, 0x5e, 0xff, 0x14, 0xe8], 0x8c, [0x02, 0x19, 0x7c, 0x5e, 0xff, 0x14, 0xe8, 0x8c]);
    VarintIs([0xc2, 0x19, 0x7c, 0x5e, 0xff, 0x14, 0xe8, 0x8c], [0x02, 0x19, 0x7c, 0x5e, 0xff, 0x14, 0xe8, 0x8c]);
  }

  lemma BytesAre(front: Bytes, last: byte, all: Bytes)
    requires all == front + [last]
    ensures BigEndian(all) == BigEndian(front) * 256 + last
  {
    assert all[..|front|] == front;
  }

  lemma OneByte(b: byte)
    ensures BigEndian([b]) == b
  {
    assert [b][..0] == [];
  }

  lemma FirstByte(high: nat, w: nat)
    requires high < 64 && w in {1, 2, 4, 8}
    ensures Width(64 * LengthBits(w) + high) == w && (64 * LengthBits(w) + high) % 64 == high
  {
  }

  lemma DivMod(v: nat, p: nat)
    requires p > 0
    ensures (v / p) * p + v % p == v && v % p < p
  {
  }

  lemma EncodingOfParts(q: nat, low: Bytes, w: nat, v: nat)
    requires q < 64 && w in {1, 2, 4, 8} && |low| == w - 1
    requires v == q * Pow256(w - 1) + BigEndian(low)
    ensures Fits(v, w) && EncodeVarint(v, w) == [64 * LengthBits(w) + q] + low
  {
    hide BigEndian, ToBytes, Pow256;
    ToBytesOfBigEndian(low);
    DivModOf(q, Pow256(w - 1), BigEndian(low));
  }

  lemma RebuildEncoding(first: byte, tail: Bytes)
    requires |tail| == Width(first) - 1
    ensures
      var v := BigEndian([first % 64] + tail);
      Fits(v, Width(first)) && EncodeVarint(v, Width(first)) == [first] + tail
  {
    hide BigEndian, EncodeVarint, Pow256, Fits, Width;
    HeadAndTail(first % 64, tail);
    EncodingOfParts(first % 64, tail, Width(first), BigEndian([first % 64] + tail));
    LengthBitsOfWidth(first);
  }

  lemma LengthBitsOfWidth(first: byte)
    ensures first == 64 * LengthBits(Width(first)) + first % 64
  {
  }

  /** What a successful read consumed is exactly the encoding, at that width, of the value it returned. */
  lemma VarintReadsAnEncoding(data: Bytes, offset: nat)
    requires Varint(data, offset).Ok?
    ensures
      var Read(v, next) := Varint(data, offset).value;
      Fits(v, next - offset) && data[offset..next] == EncodeVarint(v, next - offset)
  {
    hide BigEndian, EncodeVarint, Fits, Width;
    var first := data[offset];
    var tail := data[offset + 1..offset + Width(first)];
    RebuildEncoding(first, tail);
    assert data[offset..offset + Width(first)] == [first] + tail;
  }

  lemma DivModOf(q: byte, p: nat, r: nat)
    requires q < 64 && r < p
    ensures (q * p + r) / p == q && (q * p + r) % p == r
    ensures q * p + r < 64 * p
  {
    var x: nat := q * p + r;
    DivMod(x, p);
    OneQuotient(q, x / p, p, r, x % p);
    MulLe(q + 1, 64, p);
  }

  lemma OneQuotient(a: nat, b: nat, p: nat, r: nat, s: nat)
    requires a * p + r == b * p + s && r < p && s < p
    ensures a == b && r == s
  {
    if a < b {
      MulLe(a + 1, b, p);
    } else if b < a {
      MulLe(b + 1, a, p);
    }
  }

  lemma MulLe(a: nat, b: nat, p: nat)
    ensures a <= b ==> a * p <= b * p
  {
  }
}
