/** CRYPTO data carried by the frames of one Initial packet, and its reassembly. */
module CryptoFrames {
  import opened Wrappers
  import opened Sorting
  import opened ByteStrings
  import opened QuicVarint

  /** Fragments keyed by their offset in the crypto stream. */
  type Fragments = map<nat, Bytes>

  /*** Reading frames (sections 19.1, 19.2 and 19.6 of RFC 9000) ***/

  /** One frame: a PADDING or PING, a fragment of CRYPTO data, or any other kind, where reading stops. */
  datatype FrameRead = Skipped(next: nat) | Fragment(position: nat, data: Bytes, next: nat) | Other

  function ReadFrame(plaintext: Bytes, offset: nat): (r: Result<FrameRead, ParseError>)
    ensures r.Ok? && !r.value.Other? ==> offset < r.value.next <= |plaintext|
  {
    var Read(kind, afterKind) :- Varint(plaintext, offset);
    if kind in {0, 1} then Ok(Skipped(afterKind))
    else if kind == 6 then
      var Read(position, afterPosition) :- Varint(plaintext, afterKind);
      var Read(length, start) :- Varint(plaintext, afterPosition);
      if start + length > |plaintext| then Err(QuicParseError)
      else Ok(Fragment(position, plaintext[start..start + length], start + length))
    else Ok(Other)
  }

  /** The fragments found from `offset` on, added to the ones in `held`. */
  function ReadFrames(plaintext: Bytes, offset: nat, held: Fragments): Result<Fragments, ParseError>
    decreases |plaintext| - offset
  {
    if offset >= |plaintext| then Ok(held) else
      var frame :- ReadFrame(plaintext, offset);
      match frame
      case Skipped(next) => ReadFrames(plaintext, next, held)
      case Fragment(position, data, next) => ReadFrames(plaintext, next, held[position := data])
      case Other => Ok(held)
  }

  method CryptoFragments(plaintext: Bytes) returns (r: Result<Fragments, ParseError>)
    ensures r == ReadFrames(plaintext, 0, map[])
  {
    hide Varint;
    var offset := 0;
    var fragments: Fragments := map[];
    while offset < |plaintext|
      invariant ReadFrames(plaintext, offset, fragments) == ReadFrames(plaintext, 0, map[])
      decreases |plaintext| - offset
    {
      var kind := ReadVarint(plaintext, offset);
      if kind.Err? {
        return Err(kind.error);
      }
      offset := kind.value.next;
      if kind.value.value in {0, 1} {
        continue;
      }
      if kind.value.value == 6 {
        var position := ReadVarint(plaintext, offset);
        if position.Err? {
          return Err(position.error);
        }
        var length := ReadVarint(plaintext, position.value.next);
        if length.Err? {
          return Err(length.error);
        }
        offset := length.value.next;
        var count := length.value.value;
        if offset + count > |plaintext| {
          return Err(QuicParseError);
        }
        fragments := fragments[position.value.value := plaintext[offset..offset + count]];
        offset := offset + count;
        continue;
      }
      return Ok(fragments);
    }
    r := Ok(fragments);
  }

  /** A frame together with the varint widths chosen to write it. */
  datatype Frame =
    | Padding(kindWidth: nat)
    | Ping(kindWidth: nat)
    | Crypto(kindWidth: nat, position: nat, positionWidth: nat, lengthWidth: nat, data: Bytes)
  {
    predicate Encodable() {
      match this
      case Padding(w) => Fits(0, w)
      case Ping(w) => Fits(1, w)
      case Crypto(w, position, pw, lw, data) => Fits(6, w) && Fits(position, pw) && Fits(|data|, lw)
    }

    function Encode(): Bytes
      requires Encodable()
    {
      match this
      case Padding(w) => EncodeVarint(0, w)
      case Ping(w) => EncodeVarint(1, w)
      case Crypto(w, position, pw, lw, data) =>
        EncodeVarint(6, w) + EncodeVarint(position, pw) + EncodeVarint(|data|, lw) + data
    }
  }

  function EncodeAll(frames: seq<Frame>): Bytes
    requires forall f :: f in frames ==> f.Encodable()
  {
    if frames == [] then [] else frames[0].Encode() + EncodeAll(frames[1..])
  }

  /** What a receiver holds after these frames: a later frame replaces one at the same position. */
  function Hold(held: Fragments, frames: seq<Frame>): Fragments
    decreases |frames|
  {
    if frames == [] then held else
      var f := frames[0];
      Hold(if f.Crypto? then held[f.position := f.data] else held, frames[1..])
  }

  /** A packet ends its readable frames at its end or at a frame of any other kind. */
  predicate Stops(rest: Bytes) {
    rest == [] || (Varint(rest, 0).Ok? && Varint(rest, 0).value.value !in {0, 1, 6})
  }

  /** Where a varint starts does not matter, only the bytes from there on. */
  lemma VarintShift(before: Bytes, data: Bytes, k: nat)
    ensures Varint(before + data, |before| + k) ==
            match Varint(data, k)
            case Ok(r) => Ok(Read(r.value, |before| + r.next))
            case Err(e) => Err(e)
  {
    var all := before + data;
    if k < |data| && k + Width(data[k]) <= |data| {
      assert all[|before| + k] == data[k];
      var next := k + Width(data[k]);
      assert all[|before| + k + 1..|before| + next] == data[k + 1..next];
    }
  }

  lemma ReadCryptoFrame(before: Bytes, f: Frame, rest: Bytes)
    requires f.Encodable() && f.Crypto?
    ensures ReadFrame(before + f.Encode() + rest, |before|) ==
            Ok(Fragment(f.position, f.data, |before + f.Encode()|))
  {
    hide Varint, EncodeVarint, Fits;
    var kind := EncodeVarint(6, f.kindWidth);
    var place := EncodeVarint(f.position, f.positionWidth);
    var length := EncodeVarint(|f.data|, f.lengthWidth);
    Regroup(before, kind, place, length, f.data, rest);
    VarintRoundTrip(6, f.kindWidth, before, place + length + f.data + rest);
    VarintRoundTrip(f.position, f.positionWidth, before + kind, length + f.data + rest);
    VarintRoundTrip(|f.data|, f.lengthWidth, before + kind + place, f.data + rest);
    SliceMiddle(before + kind + place + length, f.data, rest);
  }

  /** One frame is read back whole, wherever it stands. */
  lemma ReadOneFrame(before: Bytes, f: Frame, rest: Bytes, held: Fragments)
    requires f.Encodable()
    ensures ReadFrames(before + f.Encode() + rest, |before|, held) ==
            ReadFrames(before + f.Encode() + rest, |before + f.Encode()|, Hold(held, [f]))
  {
    hide Varint, EncodeVarint;
    match f {
      case Padding(w) =>
        VarintRoundTrip(0, w, before, rest);
      case Ping(w) =>
        VarintRoundTrip(1, w, before, rest);
      case Crypto(w, position, pw, lw, data) =>
        hide ReadFrame;
        ReadCryptoFrame(before, f, rest);
    }
  }

  /** Reading inverts writing, for any frames at any widths, up to the first frame of another kind. */
  lemma {:induction false} FramesRoundTrip(before: Bytes, frames: seq<Frame>, rest: Bytes, held: Fragments)
    requires forall f :: f in frames ==> f.Encodable()
    requires Stops(rest)
    ensures ReadFrames(before + EncodeAll(frames) + rest, |before|, held) == Ok(Hold(held, frames))
    decreases |frames|
  {
    hide Varint, Frame.Encode, Frame.Encodable, Fits;
    var all := before + EncodeAll(frames) + rest;
    if frames == [] {
      assert all == before + rest;
      if rest != [] {
        VarintShift(before, rest, 0);
      }
    } else {
      hide ReadFrames;
      var f, more := frames[0], frames[1..];
      assert all == before + f.Encode() + (EncodeAll(more) + rest);
      ReadOneFrame(before, f, EncodeAll(more) + rest, held);
      assert all == (before + f.Encode()) + EncodeAll(more) + rest;
      FramesRoundTrip(before + f.Encode(), more, rest, Hold(held, [f]));
    }
  }

  lemma OneFrameRead(plaintext: Bytes, offset: nat) returns (f: Frame)
    requires ReadFrame(plaintext, offset).Ok? && !ReadFrame(plaintext, offset).value.Other?
    ensures
      var read := ReadFrame(plaintext, offset).value;
      && f.Encodable() && plaintext[offset..read.next] == f.Encode()
      && f.Crypto? == read.Fragment? && (f.Crypto? ==> f.position == read.position && f.data == read.data)
  {
    hide Varint, EncodeVarint, Fits;
    var kind := Varint(plaintext, offset).value;
    VarintReadsAnEncoding(plaintext, offset);
    if kind.value == 0 {
      f := Padding(kind.next - offset);
    } else if kind.value == 1 {
      f := Ping(kind.next - offset);
    } else {
      var place := Varint(plaintext, kind.next).value;
      var length := Varint(plaintext, place.next).value;
      var end := length.next + length.value;
      VarintReadsAnEncoding(plaintext, kind.next);
      VarintReadsAnEncoding(plaintext, place.next);
      f := Crypto(kind.next - offset, place.value, place.next - kind.next, length.next - place.next, plaintext[length.next..end]);
      Consecutive(plaintext, offset, kind.next, place.next, length.next, end);
    }
  }

  lemma Consecutive<T>(s: seq<T>, a: nat, b: nat, c: nat, d: nat, e: nat)
    requires a <= b <= c <= d <= e <= |s|
    ensures s[a..b] + s[b..c] + s[c..d] + s[d..e] == s[a..e]
  {
  }

  lemma {:induction false} FramesRead(plaintext: Bytes, offset: nat, held: Fragments) returns (frames: seq<Frame>, rest: Bytes)
    requires offset <= |plaintext| && ReadFrames(plaintext, offset, held).Ok?
    ensures (forall f :: f in frames ==> f.Encodable()) && Stops(rest)
    ensures plaintext[offset..] == EncodeAll(frames) + rest && ReadFrames(plaintext, offset, held).value == Hold(held, frames)
    decreases |plaintext| - offset
  {
    hide Varint, Fits, Frame.Encode, Frame.Encodable;
    frames, rest := [], plaintext[offset..];
    if offset < |plaintext| {
      var read := ReadFrame(plaintext, offset).value;
      if read.Other? {
        assert plaintext == plaintext[..offset] + rest;
        VarintShift(plaintext[..offset], rest, 0);
      } else {
        hide ReadFrame;
        var f := OneFrameRead(plaintext, offset);
        var more;
        more, rest := FramesRead(plaintext, read.next, if f.Crypto? then held[f.position := f.data] else held);
        frames := [f] + more;
        assert frames[1..] == more;
        assert plaintext[offset..] == plaintext[offset..read.next] + plaintext[read.next..];
        Associates(f.Encode(), EncodeAll(more), rest);
      }
    }
  }

  /** These frames, and then the end or a frame of another kind. */
  ghost predicate Reads(plaintext: Bytes, frames: seq<Frame>, rest: Bytes) {
    (forall f :: f in frames ==> f.Encodable()) && Stops(rest) && plaintext == EncodeAll(frames) + rest
  }

  /** A plaintext is read exactly when it is readable frames up to its end or to a frame of another kind; those are then held. */
  lemma FramesReadExactly(plaintext: Bytes, fragments: Fragments)
    ensures ReadFrames(plaintext, 0, map[]) == Ok(fragments) <==>
            exists frames, rest :: Reads(plaintext, frames, rest) && fragments == Hold(map[], frames)
  {
    hide ReadFrames, Stops, EncodeAll, Frame.Encodable;
    forall frames, rest | Reads(plaintext, frames, rest)
      ensures ReadFrames(plaintext, 0, map[]) == Ok(Hold(map[], frames))
    {
      FramesRoundTrip([], frames, rest, map[]);
      assert [] + EncodeAll(frames) + rest == EncodeAll(frames) + rest;
    }
    if ReadFrames(plaintext, 0, map[]) == Ok(fragments) {
      var frames, rest := FramesRead(plaintext, 0, map[]);
      assert plaintext[0..] == plaintext;
      assert Reads(plaintext, frames, rest);
    }
  }

  /** With distinct positions nothing is replaced: the packet yields exactly its CRYPTO frames. */
  lemma {:induction false} DistinctFramesAllHeld(held: Fragments, frames: seq<Frame>)
    requires forall i, j :: 0 <= i < j < |frames| && frames[i].Crypto? && frames[j].Crypto? ==>
               frames[i].position != frames[j].position
    ensures forall f :: f in frames && f.Crypto? ==> f.position in Hold(held, frames) && Hold(held, frames)[f.position] == f.data
    ensures forall p :: p in Hold(held, frames) ==>
              (exists f :: f in frames && f.Crypto? && f.position == p) || (p in held && Hold(held, frames)[p] == held[p])
    ensures forall p :: p in held && (forall f :: f in frames && f.Crypto? ==> f.position != p) ==>
              p in Hold(held, frames) && Hold(held, frames)[p] == held[p]
    decreases |frames|
  {
    if frames != [] {
      var f := frames[0];
      var next := if f.Crypto? then held[f.position := f.data] else held;
      DistinctFramesAllHeld(next, frames[1..]);
      assert frames == [f] + frames[1..];
    }
  }

  /*** Reassembly ***/

  /** Position `p` of the stream lies inside some held fragment. */
  ghost predicate Covered(held: Fragments, p: nat) {
    exists o :: o in held && Within(held, o, p)
  }

  predicate Within(held: Fragments, o: nat, p: nat)
    requires o in held
  {
    o <= p < o + |held[o]|
  }

  /** Every fragment is a slice of the one stream the client sends. */
  ghost predicate SlicesOf(held: Fragments, stream: Bytes) {
    forall o :: o in held ==> o + |held[o]| <= |stream| && held[o] == stream[o..o + |held[o]|]
  }

  /** `sorted` over offsets. */
  function Ascending(keys: set<nat>): (s: seq<nat>)
    ensures forall k :: k in s <==> k in keys
    ensures forall i, j :: 0 <= i < j < |s| ==> s[i] < s[j]
  {
    Sorted((a: nat, b: nat) => a < b, keys)
  }

  /** Bytes still missing from `assembled` when a fragment at `o` is added. */
  function Extend(assembled: Bytes, o: nat, fragment: Bytes): Bytes
    requires o <= |assembled|
  {
    var overlap := |assembled| - o;
    if overlap < |fragment| then assembled + fragment[overlap..] else assembled
  }

  function AssembleFrom(held: Fragments, keys: seq<nat>, assembled: Bytes): Bytes
    requires forall k :: k in keys ==> k in held
  {
    if keys == [] || keys[0] > |assembled| then assembled
    else AssembleFrom(held, keys[1..], Extend(assembled, keys[0], held[keys[0]]))
  }

  function Assembled(held: Fragments): Bytes {
    AssembleFrom(held, Ascending(held.Keys), [])
  }

  lemma AssembleStep(held: Fragments, keys: seq<nat>, assembled: Bytes)
    requires forall k :: k in keys ==> k in held
    ensures keys == [] || keys[0] > |assembled| ==> AssembleFrom(held, keys, assembled) == assembled
    ensures keys != [] && keys[0] <= |assembled| ==>
              AssembleFrom(held, keys, assembled) == AssembleFrom(held, keys[1..], Extend(assembled, keys[0], held[keys[0]]))
  {
  }

  method AssembleCrypto(held: Fragments) returns (assembled: Bytes)
    ensures assembled == Assembled(held)
  {
    hide Sorted, AssembleFrom;
    var order := Ascending(held.Keys);
    assembled := [];
    var i := 0;
    assert order[0..] == order;
    ghost var all := AssembleFrom(held, order, []);
    assert forall k :: k in order ==> k in held;
    while i < |order|
      invariant 0 <= i <= |order|
      invariant forall k :: k in order ==> k in held
      invariant AssembleFrom(held, order[i..], assembled) == all
    {
      var o := order[i];
      assert order[i..][0] == o && order[i..][1..] == order[i + 1..];
      AssembleStep(held, order[i..], assembled);
      if o > |assembled| {
        return;
      }
      var overlap := |assembled| - o;
      var fragment := held[o];
      if overlap < |fragment| {
        assembled := assembled + fragment[overlap..];
      }
      i := i + 1;
    }
    AssembleStep(held, order[i..], assembled);
  }

  /** The bytes assembled are the longest prefix of the stream that the fragments cover. */
  ghost predicate MaximalPrefix(held: Fragments, stream: Bytes, r: Bytes) {
    && r <= stream
    && (forall p :: 0 <= p < |r| ==> Covered(held, p))
    && !Covered(held, |r|)
  }

  /** No fragment that carries `p` starts before this one. */
  ghost predicate FirstCarrier(held: Fragments, o: nat, p: nat) {
    o in held && Within(held, o, p) && forall q :: q in held && Within(held, q, p) ==> o <= q
  }

  ghost predicate TakenFromFirst(held: Fragments, p: nat, b: byte) {
    exists o :: FirstCarrier(held, o, p) && held[o][p - o] == b
  }

  lemma {:induction false} AssembleFromFirst(held: Fragments, keys: seq<nat>, assembled: Bytes)
    requires forall k :: k in keys ==> k in held
    requires forall i, j :: 0 <= i < j < |keys| ==> keys[i] < keys[j]
    requires forall p :: 0 <= p < |assembled| ==> TakenFromFirst(held, p, assembled[p])
    requires forall o :: o in held ==> o in keys || o + |held[o]| <= |assembled|
    ensures
      var r := AssembleFrom(held, keys, assembled);
      !Covered(held, |r|) && forall p :: 0 <= p < |r| ==> TakenFromFirst(held, p, r[p])
    decreases |keys|
  {
    if keys != [] && keys[0] <= |assembled| {
      var o: nat := keys[0];
      var next := Extend(assembled, o, held[o]);
      forall p | 0 <= p < |next|
        ensures TakenFromFirst(held, p, next[p])
      {
        if p >= |assembled| {
          assert FirstCarrier(held, o, p) && held[o][p - o] == next[p];
        }
      }
      assert forall k :: k in keys ==> k == o || k in keys[1..];
      AssembleFromFirst(held, keys[1..], next);
    }
  }

  /**
   * Of any fragments at all, the bytes up to the first position that none carries are assembled, each from
   * the fragment that starts first of those that carry it.
   */
  lemma AssembledExactly(held: Fragments)
    ensures !Covered(held, |Assembled(held)|)
    ensures forall p: nat :: 0 <= p < |Assembled(held)| ==> TakenFromFirst(held, p, Assembled(held)[p])
  {
    AssembleFromFirst(held, Ascending(held.Keys), []);
  }

  /** Whatever order the slices arrived in, what is assembled is exactly the maximal covered prefix. */
  lemma AssembledIsMaximalPrefix(held: Fragments, stream: Bytes)
    requires SlicesOf(held, stream)
    ensures MaximalPrefix(held, stream, Assembled(held))
  {
    hide Assembled;
    AssembledExactly(held);
    var r := Assembled(held);
    forall p | 0 <= p < |r|
      ensures Covered(held, p) && p < |stream| && r[p] == stream[p]
    {
      assert TakenFromFirst(held, p, r[p]);
      var o :| FirstCarrier(held, o, p) && held[o][p - o] == r[p];
    }
    if r != [] {
      assert Covered(held, |r| - 1);
    }
  }

  /** Two collections of slices that cover the same positions assemble to the same bytes. */
  lemma AssembledDependsOnlyOnCoverage(a: Fragments, b: Fragments, stream: Bytes)
    requires SlicesOf(a, stream) && SlicesOf(b, stream)
    requires forall p: nat :: Covered(a, p) <==> Covered(b, p)
    ensures Assembled(a) == Assembled(b)
  {
    AssembledIsMaximalPrefix(a, stream);
    AssembledIsMaximalPrefix(b, stream);
    var x, y := Assembled(a), Assembled(b);
    assert |x| == |y| by {
      assert !Covered(a, |x|) && !Covered(b, |y|);
    }
    assert x == stream[..|x|] && y == stream[..|y|];
  }

  /** Slices stay slices when another packet's slices are added, so the maximal prefix theorem applies to every arrival. */
  lemma SlicesAccumulate(held: Fragments, more: Fragments, stream: Bytes)
    requires SlicesOf(held, stream) && SlicesOf(more, stream)
    ensures SlicesOf(held + more, stream)
  {
  }

  /** Unless a shorter fragment replaces a longer one, what is assembled only grows. */
  lemma AssembledGrows(held: Fragments, later: Fragments, stream: Bytes)
    requires SlicesOf(held, stream) && SlicesOf(later, stream)
    requires forall o :: o in held && o in later ==> |held[o]| <= |later[o]|
    ensures Assembled(held) <= Assembled(held + later)
  {
    hide Assembled;
    var x, y := Assembled(held), Assembled(held + later);
    AssembledIsMaximalPrefix(held, stream);
    AssembledIsMaximalPrefix(held + later, stream);
    forall p: nat | Covered(held, p)
      ensures Covered(held + later, p)
    {
      var o :| o in held && Within(held, o, p);
      assert Within(held + later, o, p);
    }
    assert !Covered(held, |y|);
    assert x == stream[..|x|] && y == stream[..|y|];
  }

  lemma GrowsIfStillCovered(held: Fragments, later: Fragments, stream: Bytes)
    requires SlicesOf(held, stream) && SlicesOf(later, stream)
    ensures Assembled(held) <= Assembled(held + later) <==>
            forall p: nat :: p < |Assembled(held)| ==> Covered(held + later, p)
  {
    hide Assembled, Covered;
    var x, y := Assembled(held), Assembled(held + later);
    AssembledIsMaximalPrefix(held, stream);
    AssembledIsMaximalPrefix(held + later, stream);
    assert x == stream[..|x|] && y == stream[..|y|];
    assert !Covered(held + later, |y|);
  }

  /** The fragment at `o` carries position `p`, and its replacement does not. */
  ghost predicate Dropped(held: Fragments, later: Fragments, o: nat, p: nat) {
    o in held && o in later && Within(held, o, p) && !Within(later, o, p)
  }

  /** No gap comes before position `p` or at it. */
  ghost predicate Reached(held: Fragments, p: nat) {
    forall q: nat :: q <= p ==> Covered(held, q)
  }

  /** A fragment at another position than `o` carries `p`. */
  ghost predicate CarriedElsewhere(held: Fragments, o: nat, p: nat) {
    exists q :: q in held && q != o && Within(held, q, p)
  }

  /**
   * What is assembled only grows, exactly when every byte that was in use and that a shorter replacement
   * drops is carried by some other fragment.
   */
  lemma AssembledGrowsExactly(held: Fragments, later: Fragments, stream: Bytes)
    requires SlicesOf(held, stream) && SlicesOf(later, stream)
    ensures Assembled(held) <= Assembled(held + later) <==>
            forall o, p :: Dropped(held, later, o, p) && Reached(held, p) ==> CarriedElsewhere(held + later, o, p)
  {
    hide Assembled;
    GrowsIfStillCovered(held, later, stream);
    AssembledIsMaximalPrefix(held, stream);
    var all, n := held + later, |Assembled(held)|;
    forall p: nat
      ensures Reached(held, p) <==> p < n
    {
      assert !Covered(held, n);
    }
    forall o, p | Dropped(held, later, o, p) && Covered(all, p)
      ensures CarriedElsewhere(all, o, p)
    {
      var q :| q in all && Within(all, q, p);
      assert q != o;
    }
    forall p: nat | Covered(held, p) && !Covered(all, p)
      ensures exists o :: Dropped(held, later, o, p) && !CarriedElsewhere(all, o, p)
    {
      var o :| o in held && Within(held, o, p);
      assert !Within(all, o, p);
      assert Dropped(held, later, o, p);
    }
  }

  /**
   * Progress is not monotone: a shorter fragment at a position already held
   * replaces a longer one, and the assembled prefix shrinks.
   */
  lemma ShorterFragmentShrinksThePrefix()
    ensures
      var stream: Bytes := [1, 2];
      var held: Fragments := map[0 := [1, 2]];
      var later: Fragments := map[0 := [1]];
      && SlicesOf(held, stream) && SlicesOf(later, stream)
      && |Assembled(held + later)| < |Assembled(held)|
  {
    hide Assembled;
    var stream: Bytes := [1, 2];
    var held: Fragments := map[0 := [1, 2]];
    var later: Fragments := map[0 := [1]];
    AssembledIsMaximalPrefix(held, stream);
    AssembledIsMaximalPrefix(held + later, stream);
    assert Within(held, 0, 0) && Within(held, 0, 1);
    assert Covered(held, 0) && Covered(held, 1);
    assert !Covered(held + later, 1);
  }
}
