/** Connection IDs in a QUIC long header (section 17.2 of RFC 9000). */
module ConnectionIds {
  import opened Wrappers
  import opened ByteStrings
  import opened QuicVarint

  datatype Ids = Ids(destination: Bytes, source: Bytes)

  predicate IsLongHeader(datagram: Bytes) {
    datagram != [] && datagram[0] >= 128
  }

  function InitialConnectionIds(datagram: Bytes): (r: Result<Ids, ParseError>)
    ensures r.Ok? ==> IsLongHeader(datagram)
  {
    if |datagram| < 7 || !IsLongHeader(datagram) then Err(QuicParseError) else
      var destinationLength: nat := datagram[5];
      var destination := Slice(datagram, 6, 6 + destinationLength);
      var offset := 6 + destinationLength;
      if offset >= |datagram| then Err(QuicParseError) else
        var sourceLength: nat := datagram[offset];
        var source := Slice(datagram, offset + 1, offset + 1 + sourceLength);
        if |destination| != destinationLength || |source| != sourceLength then Err(QuicParseError)
        else Ok(Ids(destination, source))
  }

  /** A long header: the first byte has its top bit set, and four version bytes follow. */
  function LongHeader(first: byte, version: Bytes, ids: Ids, payload: Bytes): Bytes
    requires first >= 128 && |version| == 4 && |ids.destination| < 256 && |ids.source| < 256
  {
    [first] + version + [|ids.destination|] + ids.destination + [|ids.source|] + ids.source + payload
  }

  /** The IDs are read from a datagram exactly when it is a long header carrying them. */
  lemma ConnectionIdsExact(datagram: Bytes, ids: Ids)
    ensures InitialConnectionIds(datagram) == Ok(ids) <==>
            exists first: byte, version: Bytes, payload: Bytes ::
              && first >= 128 && |version| == 4 && |ids.destination| < 256 && |ids.source| < 256
              && datagram == LongHeader(first, version, ids, payload)
  {
    if InitialConnectionIds(datagram) == Ok(ids) {
      var d, s := |ids.destination|, |ids.source|;
      assert datagram == LongHeader(datagram[0], datagram[1..5], ids, datagram[7 + d + s..]);
    }
    forall first: byte, version: Bytes, payload: Bytes |
      && first >= 128 && |version| == 4 && |ids.destination| < 256 && |ids.source| < 256
      && datagram == LongHeader(first, version, ids, payload)
      ensures InitialConnectionIds(datagram) == Ok(ids)
    {
      HeaderParts([first] + version, ids, payload);
    }
  }

  lemma HeaderParts(head: Bytes, ids: Ids, payload: Bytes)
    requires |head| == 5 && |ids.destination| < 256 && |ids.source| < 256
    ensures
      var d := |ids.destination|;
      var datagram := head + [d] + ids.destination + [|ids.source|] + ids.source + payload;
      && datagram[0] == head[0] && datagram[5] == d && datagram[6 + d] == |ids.source|
      && datagram[6..6 + d] == ids.destination
      && datagram[7 + d..7 + d + |ids.source|] == ids.source
  {
  }
}
