/** The TLS ClientHello (section 4.1.2 of RFC 8446), read for its server name and protocols. */
module ClientHello {
  import opened Wrappers
  import opened ByteStrings
  import opened QuicVarint

  /** What routing needs: the name (section 3 of RFC 6066) and the ALPN list (section 3.1 of RFC 7301). */
  datatype Hello = Hello(serverName: string, alpns: seq<string>)

  /*** Text ***/

  function Ascii(s: Bytes): (r: Result<string, ParseError>)
    ensures r.Ok? <==> forall b :: b in s ==> b < 128
    ensures r.Ok? ==> |r.value| == |s| && forall i :: 0 <= i < |s| ==> r.value[i] == s[i] as char
  {
    if forall b :: b in s ==> b < 128 then Ok(seq(|s|, i requires 0 <= i < |s| => s[i] as char)) else Err(UnicodeError)
  }

  predicate IsAscii(name: string) {
    forall c :: c in name ==> c as int < 128
  }

  function Code(c: char): byte {
    if c as int < 128 then c as int else 0
  }

  function AsciiBytes(name: string): (s: Bytes)
    requires IsAscii(name)
    ensures |s| == |name| && Ascii(s) == Ok(name)
  {
    var s := seq<byte>(|name|, i requires 0 <= i < |name| => Code(name[i]));
    assert forall i :: 0 <= i < |name| ==> s[i] == Code(name[i]) && name[i] in name;
    assert forall i :: 0 <= i < |name| ==> s[i] as char == name[i];
    assert |Ascii(s).value| == |name| && forall i :: 0 <= i < |name| ==> Ascii(s).value[i] == name[i];
    assert Ascii(s).value == name;
    s
  }

  function Lower(c: char): char {
    if 'A' <= c <= 'Z' then (c as int + 32) as char else c
  }

  /** `casefold()` on ASCII text. */
  function CaseFold(name: string): (r: string)
    ensures |r| == |name|
  {
    seq(|name|, i requires 0 <= i < |name| => Lower(name[i]))
  }

  predicate IsCapital(c: char) {
    'A' <= c <= 'Z'
  }

  /** The same character, or the two cases of one letter. */
  predicate SameLetter(c: char, d: char) {
    c == d || (IsCapital(c) && d as int == c as int + 32) || (IsCapital(d) && c as int == d as int + 32)
  }

  /** Folding takes the capitals out and nothing else, so names have one fold exactly when they differ in case only. */
  lemma FoldExactly(a: string, b: string)
    ensures forall i :: 0 <= i < |a| ==> !IsCapital(CaseFold(a)[i]) && SameLetter(a[i], CaseFold(a)[i])
    ensures CaseFold(a) == CaseFold(b) <==> |a| == |b| && forall i :: 0 <= i < |a| ==> SameLetter(a[i], b[i])
  {
    assert forall i :: 0 <= i < |a| ==> CaseFold(a)[i] == Lower(a[i]);
    assert forall i :: 0 <= i < |b| ==> CaseFold(b)[i] == Lower(b[i]);
    if |a| == |b| && forall i :: 0 <= i < |a| ==> SameLetter(a[i], b[i]) {
      assert forall i :: 0 <= i < |a| ==> CaseFold(a)[i] == CaseFold(b)[i];
    }
    if CaseFold(a) == CaseFold(b) {
      assert |a| == |b| && forall i :: 0 <= i < |a| ==> Lower(a[i]) == Lower(b[i]);
    }
  }

  /** `rstrip(".")`. */
  function StripDots(name: string): (r: string)
    ensures r <= name && (r == "" || r[|r| - 1] != '.')
    ensures forall i :: |r| <= i < |name| ==> name[i] == '.'
  {
    if name != "" && name[|name| - 1] == '.' then StripDots(name[..|name| - 1]) else name
  }

  function Canonical(name: string): string {
    StripDots(CaseFold(name))
  }

  /** The canonical name is the fold of what comes before the closing dots. */
  lemma {:induction false} CanonicalExactly(name: string, dots: string)
    requires (name == "" || name[|name| - 1] != '.') && forall c :: c in dots ==> c == '.'
    ensures Canonical(name + dots) == CaseFold(name)
  {
    var all, r := CaseFold(name + dots), Canonical(name + dots);
    assert forall i :: 0 <= i < |all| ==> all[i] == Lower((name + dots)[i]);
    assert forall i :: |name| <= i < |all| ==> (name + dots)[i] in dots;
    assert name != "" ==> all[|name| - 1] == Lower(name[|name| - 1]);
    assert |r| == |name|;
    assert r == all[..|name|];
  }

  /*** Reading ***/

  function ByteAt(s: Bytes, i: nat): Result<byte, ParseError> {
    if i < |s| then Ok(s[i]) else Err(IndexError)
  }

  /** A big-endian field; a slice cut short by the end of the buffer is read as it stands. */
  function Field(s: Bytes, lo: nat, hi: nat): nat {
    BigEndian(Slice(s, lo, hi))
  }

  function ReadProtocols(value: Bytes, cursor: nat, found: seq<string>): Result<seq<string>, ParseError>
    decreases |value| - cursor
  {
    if cursor >= |value| then Ok(found) else
      var next := cursor + 1 + value[cursor];
      var item :- Ascii(Slice(value, cursor + 1, next));
      ReadProtocols(value, next, found + [item])
  }

  /** The effect of one extension on what has been found so far. */
  function ReadExtension(kind: nat, value: Bytes, found: Hello): Result<Hello, ParseError> {
    if kind == 0 && |value| >= 5 then
      var name :- Ascii(Slice(value, 5, 5 + Field(value, 3, 5)));
      Ok(found.(serverName := Canonical(name)))
    else if kind == 16 && |value| >= 2 then
      var alpns :- ReadProtocols(value, 2, found.alpns);
      Ok(found.(alpns := alpns))
    else Ok(found)
  }

  function ReadExtensions(body: Bytes, offset: nat, end: nat, found: Hello): Result<Hello, ParseError>
    decreases end - offset
  {
    if offset + 4 > end then Ok(found) else
      var next := offset + 4 + Field(body, offset + 2, offset + 4);
      var more :- ReadExtension(Field(body, offset, offset + 2), Slice(body, offset + 4, next), found);
      ReadExtensions(body, next, end, more)
  }

  /** Where the extensions start and end in the body. */
  function ExtensionBounds(body: Bytes): Result<(nat, nat), ParseError> {
    var sessionLength :- ByteAt(body, 34);
    var ciphers := 35 + sessionLength;
    var compression := ciphers + 2 + Field(body, ciphers, ciphers + 2);
    var compressionLength :- ByteAt(body, compression);
    var extensions := compression + 1 + compressionLength;
    Ok((extensions + 2, extensions + 2 + Field(body, extensions, extensions + 2)))
  }

  function ReadBody(body: Bytes): Result<Hello, ParseError> {
    var (start, end) :- ExtensionBounds(body);
    var found :- ReadExtensions(body, start, end, Hello("", []));
    if found.serverName == "" then Err(QuicParseError) else Ok(found)
  }

  function Parse(crypto: Bytes): Result<Hello, ParseError> {
    if |crypto| < 4 || crypto[0] != 1 then Err(QuicParseError) else
      var length := BigEndian(crypto[1..4]);
      var body := Slice(crypto, 4, 4 + length);
      if |body| != length then Err(QuicParseError) else ReadBody(body)
  }

  method ParseAlpnList(value: Bytes, found: seq<string>) returns (r: Result<seq<string>, ParseError>)
    ensures r == ReadProtocols(value, 2, found)
  {
    hide Ascii, Slice;
    var alpns := found;
    var cursor: nat := 2;
    while cursor < |value|
      invariant ReadProtocols(value, cursor, alpns) == ReadProtocols(value, 2, found)
      decreases |value| - cursor
    {
      var itemLength := value[cursor];
      cursor := cursor + 1;
      var item := Ascii(Slice(value, cursor, cursor + itemLength));
      if item.Err? {
        return Err(item.error);
      }
      alpns := alpns + [item.value];
      cursor := cursor + itemLength;
    }
    r := Ok(alpns);
  }

  method ParseClientHello(crypto: Bytes) returns (r: Result<Hello, ParseError>)
    ensures r == Parse(crypto)
  {
    hide BigEndian, Field, ReadExtensions;
    if |crypto| < 4 || crypto[0] != 1 {
      return Err(QuicParseError);
    }
    var length := BigEndian(crypto[1..4]);
    var body := Slice(crypto, 4, 4 + length);
    if |body| != length {
      return Err(QuicParseError);
    }
    if |body| <= 34 {
      return Err(IndexError);
    }
    var sessionLength: nat := body[34];
    var offset := 35 + sessionLength;
    offset := offset + 2 + Field(body, offset, offset + 2);
    if offset >= |body| {
      return Err(IndexError);
    }
    offset := offset + 1 + body[offset];
    var end := offset + 2 + Field(body, offset, offset + 2);
    offset := offset + 2;
    var found := WalkExtensions(body, offset, end);
    if found.Err? {
      return Err(found.error);
    }
    r := if found.value.serverName == "" then Err(QuicParseError) else found;
  }

  method WalkExtensions(body: Bytes, start: nat, end: nat) returns (r: Result<Hello, ParseError>)
    ensures r == ReadExtensions(body, start, end, Hello("", []))
  {
    hide ReadExtension, Field, Slice;
    var offset := start;
    var found := Hello("", []);
    while offset + 4 <= end
      invariant ReadExtensions(body, offset, end, found) == ReadExtensions(body, start, end, Hello("", []))
      decreases end - offset
    {
      var kind := Field(body, offset, offset + 2);
      var next := offset + 4 + Field(body, offset + 2, offset + 4);
      var more := ApplyExtension(kind, Slice(body, offset + 4, next), found);
      if more.Err? {
        return more;
      }
      found := more.value;
      offset := next;
    }
    r := Ok(found);
  }

  method ApplyExtension(kind: nat, value: Bytes, found: Hello) returns (r: Result<Hello, ParseError>)
    ensures r == ReadExtension(kind, value, found)
  {
    hide Ascii, Canonical, ReadProtocols;
    if kind == 0 && |value| >= 5 {
      var name := Ascii(Slice(value, 5, 5 + Field(value, 3, 5)));
      if name.Err? {
        return Err(name.error);
      }
      return Ok(found.(serverName := Canonical(name.value)));
    } else if kind == 16 && |value| >= 2 {
      var alpns := ParseAlpnList(value, found.alpns);
      if alpns.Err? {
        return Err(alpns.error);
      }
      return Ok(found.(alpns := alpns.value));
    }
    r := Ok(found);
  }

  /*** Writing ***/

  datatype Extension =
    | ServerName(name: string, otherNames: Bytes)
    | Protocols(names: seq<string>)
    | OtherExtension(kind: nat, content: Bytes)
  {
    predicate Encodable() {
      match this
      case ServerName(name, others) => IsAscii(name) && |name| + |others| < 0xFFFB
      case Protocols(names) =>
        Listable(names) && ProtocolsLength(names) < 0xFFFE
      case OtherExtension(kind, content) =>
        // One of the two kinds counts as another if it is too short to hold a name or a list.
        kind < 0x1_0000 && |content| < 0x1_0000 && (kind == 0 ==> |content| < 5) && (kind == 16 ==> |content| < 2)
    }

    function Kind(): nat {
      match this
      case ServerName(_, _) => 0
      case Protocols(_) => 16
      case OtherExtension(kind, _) => kind
    }

    function Value(): (s: Bytes)
      requires Encodable()
      ensures |s| < 0x1_0000
    {
      match this
      case ServerName(name, others) =>
        TwoBytes(3 + |name| + |others|) + [0] + TwoBytes(|name|) + AsciiBytes(name) + others
      case Protocols(names) => TwoBytes(ProtocolsLength(names)) + EncodeProtocols(names)
      case OtherExtension(_, content) => content
    }

    function Encode(): (s: Bytes)
      requires Encodable()
      ensures |s| == 4 + |Value()|
    {
      TwoBytes(Kind()) + TwoBytes(|Value()|) + Value()
    }
  }

  function TwoBytes(v: nat): (s: Bytes)
    requires v < 0x1_0000
    ensures |s| == 2 && BigEndian(s) == v
  {
    Pow256Values();
    ToBytes(v, 2)
  }

  function ProtocolsLength(names: seq<string>): nat {
    if names == [] then 0 else 1 + |names[0]| + ProtocolsLength(names[1..])
  }

  /** Each name fits the one-byte length before it. */
  predicate Listable(names: seq<string>) {
    forall i :: 0 <= i < |names| ==> IsAscii(names[i]) && |names[i]| < 256
  }

  function EncodeProtocols(names: seq<string>): (s: Bytes)
    requires Listable(names)
    ensures |s| == ProtocolsLength(names)
  {
    if names == [] then [] else [|names[0]|] + AsciiBytes(names[0]) + EncodeProtocols(names[1..])
  }

  function EncodeExtensions(extensions: seq<Extension>): Bytes
    requires forall e :: e in extensions ==> e.Encodable()
  {
    if extensions == [] then [] else extensions[0].Encode() + EncodeExtensions(extensions[1..])
  }

  datatype Message = Message(
    version: Bytes, random: Bytes, session: Bytes, ciphers: Bytes, compression: Bytes,
    extensions: seq<Extension>)
  {
    predicate Encodable() {
      && |version| == 2 && |random| == 32
      && |session| < 256 && |ciphers| < 0x1_0000 && |compression| < 256
      && (forall e :: e in extensions ==> e.Encodable())
      && |EncodeExtensions(extensions)| < 0x1_0000
    }

    function Preamble(): (s: Bytes)
      requires Encodable()
    {
      version + random + [|session|] + session + TwoBytes(|ciphers|) + ciphers + [|compression|] + compression
    }

    function Body(): (s: Bytes)
      requires Encodable()
      ensures |s| < 0x100_0000
    {
      Preamble() + TwoBytes(|EncodeExtensions(extensions)|) + EncodeExtensions(extensions)
    }

    function Encode(): (s: Bytes)
      requires Encodable()
      ensures |s| == 4 + |Body()|
    {
      Pow256Values();
      [1] + ToBytes(|Body()|, 3) + Body()
    }
  }

  function Say(e: Extension, found: Hello): Hello {
    match e
    case ServerName(name, _) => found.(serverName := Canonical(name))
    case Protocols(names) => found.(alpns := found.alpns + names)
    case OtherExtension(_, _) => found
  }

  /** What these extensions say: the last server name, and all protocols in order. */
  function Said(extensions: seq<Extension>, found: Hello): Hello
    decreases |extensions|
  {
    if extensions == [] then found else Said(extensions[1..], Say(extensions[0], found))
  }

  /*** Round trips ***/

  lemma {:induction false} ProtocolsRoundTrip(before: Bytes, names: seq<string>, found: seq<string>)
    requires Listable(names)
    ensures ReadProtocols(before + EncodeProtocols(names), |before|, found) == Ok(found + names)
    decreases |names|
  {
    if names == [] {
      NoProtocols(before, found);
    } else {
      hide Listable, ReadProtocols, EncodeProtocols;
      var head := FirstProtocol(before, names, found);
      ProtocolsRoundTrip(head, names[1..], found + [names[0]]);
      MoveFirst(found, names);
    }
  }

  lemma NoProtocols(before: Bytes, found: seq<string>)
    ensures ReadProtocols(before + EncodeProtocols([]), |before|, found) == Ok(found + [])
  {
    assert before + [] == before && found + [] == found;
  }

  lemma FirstProtocol(before: Bytes, names: seq<string>, found: seq<string>) returns (head: Bytes)
    requires names != [] && Listable(names)
    ensures Listable(names[1..])
    ensures ReadProtocols(before + EncodeProtocols(names), |before|, found) ==
            ReadProtocols(head + EncodeProtocols(names[1..]), |head|, found + [names[0]])
  {
    hide AsciiBytes, IsAscii, ReadProtocols, EncodeProtocols;
    var length, text, rest := [|names[0]|], AsciiBytes(names[0]), EncodeProtocols(names[1..]);
    head := before + length + text;
    Unfolded(names);
    RegroupLeft(before, length, text, rest);
    OneProtocol(before, names[0], rest, found);
  }

  lemma Unfolded(names: seq<string>)
    requires names != [] && Listable(names)
    ensures Listable(names[1..])
    ensures EncodeProtocols(names) == [|names[0]|] + AsciiBytes(names[0]) + EncodeProtocols(names[1..])
  {
    hide AsciiBytes, IsAscii;
  }

  lemma OneProtocol(before: Bytes, name: string, rest: Bytes, found: seq<string>)
    requires IsAscii(name) && |name| < 256
    ensures
      var head := before + [|name|] + AsciiBytes(name);
      ReadProtocols(head + rest, |before|, found) == ReadProtocols(head + rest, |head|, found + [name])
  {
    hide AsciiBytes, Ascii;
    var text := AsciiBytes(name);
    var head := before + [|name|] + text;
    var value := head + rest;
    assert value[|before|] == |name|;
    SliceMiddle(before + [|name|], text, rest);
  }

  lemma ExtensionValueRoundTrip(e: Extension, found: Hello)
    requires e.Encodable()
    ensures ReadExtension(e.Kind(), e.Value(), found) == Ok(Say(e, found))
  {
    match e {
      case ServerName(name, others) =>
        hide AsciiBytes, Ascii, Canonical, BigEndian;
        var list, length, text := TwoBytes(3 + |name| + |others|), TwoBytes(|name|), AsciiBytes(name);
        assert e.Value()[3..5] == length;
        assert e.Value()[5..5 + |name|] == text;
        assert Say(e, found) == found.(serverName := Canonical(name));
      case Protocols(names) =>
        ProtocolsRoundTrip(TwoBytes(ProtocolsLength(names)), names, found.alpns);
        assert Say(e, found) == found.(alpns := found.alpns + names);
      case OtherExtension(_, _) =>
    }
  }

  lemma ExtensionFields(before: Bytes, e: Extension, after: Bytes)
    requires e.Encodable()
    ensures
      var body := before + e.Encode() + after;
      && Field(body, |before|, |before| + 2) == e.Kind()
      && Field(body, |before| + 2, |before| + 4) == |e.Value()|
      && Slice(body, |before| + 4, |before| + |e.Encode()|) == e.Value()
  {
    hide Extension.Value, BigEndian;
    var body := before + e.Encode() + after;
    assert body[|before|..|before| + 2] == TwoBytes(e.Kind());
    assert body[|before| + 2..|before| + 4] == TwoBytes(|e.Value()|);
    assert body[|before| + 4..|before| + |e.Encode()|] == e.Value();
  }

  lemma {:induction false} ExtensionsRoundTrip(before: Bytes, extensions: seq<Extension>, found: Hello)
    requires forall e :: e in extensions ==> e.Encodable()
    ensures
      var body := before + EncodeExtensions(extensions);
      ReadExtensions(body, |before|, |body|, found) == Ok(Said(extensions, found))
    decreases |extensions|
  {
    hide Extension.Encodable, Field, ReadExtension, Extension.Value;
    var body := before + EncodeExtensions(extensions);
    if extensions != [] {
      var e, more := extensions[0], extensions[1..];
      assert body == before + e.Encode() + EncodeExtensions(more);
      ExtensionFields(before, e, EncodeExtensions(more));
      ExtensionValueRoundTrip(e, found);
      ExtensionsRoundTrip(before + e.Encode(), more, Say(e, found));
    }
  }

  lemma PreambleFields(m: Message, after: Bytes)
    requires m.Encodable()
    ensures
      var body := m.Preamble() + after;
      var compression := 37 + |m.session| + |m.ciphers|;
      && |m.Preamble()| == compression + 1 + |m.compression|
      && body[34] == |m.session|
      && body[35 + |m.session|..37 + |m.session|] == TwoBytes(|m.ciphers|)
      && body[compression] == |m.compression|
  {
    hide TwoBytes, BigEndian, EncodeExtensions, Extension.Encodable;
    var body := m.Preamble() + after;
    var head := m.version + m.random + [|m.session|] + m.session;
    assert |head| == 35 + |m.session| && head[34] == |m.session|;
    var length, rest := TwoBytes(|m.ciphers|), m.ciphers + [|m.compression|] + m.compression + after;
    assert body == head + length + rest;
    SliceMiddle(head, length, rest);
    assert rest[|m.ciphers|] == |m.compression|;
  }

  lemma BoundsRoundTrip(m: Message)
    requires m.Encodable()
    ensures
      var start := |m.Preamble()| + 2;
      ExtensionBounds(m.Body()) == Ok((start, start + |EncodeExtensions(m.extensions)|))
  {
    hide BigEndian, EncodeExtensions, TwoBytes, Message.Preamble;
    var body, extensions := m.Body(), EncodeExtensions(m.extensions);
    var after := TwoBytes(|extensions|) + extensions;
    Associates(m.Preamble(), TwoBytes(|extensions|), extensions);
    PreambleFields(m, after);
    SliceMiddle(m.Preamble(), TwoBytes(|extensions|), extensions);
  }

  /** The message type and length lead to exactly the body. */
  lemma ParsesBody(m: Message, after: Bytes)
    requires m.Encodable()
    ensures Parse(m.Encode() + after) == ReadBody(m.Body())
  {
    hide ReadBody, Message.Body;
    var crypto, length := m.Encode() + after, ToBytes(|m.Body()|, 3);
    Pow256Values();
    assert crypto[1..4] == length;
    assert crypto[4..4 + |m.Body()|] == m.Body();
  }

  /**
   * Parsing inverts encoding for every session id, cipher list and list of
   * extensions, whatever bytes follow the message; a message without a server
   * name is refused.
   */
  lemma ClientHelloRoundTrip(m: Message, after: Bytes)
    requires m.Encodable()
    ensures
      var said := Said(m.extensions, Hello("", []));
      Parse(m.Encode() + after) == if said.serverName == "" then Err(QuicParseError) else Ok(said)
  {
    hide ReadExtensions, ExtensionBounds, Message.Preamble, EncodeExtensions, Message.Encode, Parse;
    ParsesBody(m, after);
    BoundsRoundTrip(m);
    var before := m.Preamble() + TwoBytes(|EncodeExtensions(m.extensions)|);
    assert m.Body() == before + EncodeExtensions(m.extensions);
    ExtensionsRoundTrip(before, m.extensions, Hello("", []));
  }

  lemma {:induction false} SaidSplit(a: seq<Extension>, b: seq<Extension>, found: Hello)
    ensures Said(a + b, found) == Said(b, Said(a, found))
    decreases |a|
  {
    if a == [] {
      assert a + b == b;
    } else {
      assert (a + b)[0] == a[0] && (a + b)[1..] == a[1..] + b;
      SaidSplit(a[1..], b, Say(a[0], found));
    }
  }

  lemma {:induction false} SaidByOthers(extensions: seq<Extension>, found: Hello)
    ensures (forall e :: e in extensions ==> !e.ServerName?) ==> Said(extensions, found).serverName == found.serverName
    ensures (forall e :: e in extensions ==> !e.Protocols?) ==> Said(extensions, found).alpns == found.alpns
    decreases |extensions|
  {
    if extensions != [] {
      SaidByOthers(extensions[1..], Say(extensions[0], found));
    }
  }

  /** With one extension of each kind, at any place and in any order, the message says just what they say. */
  lemma SaidByOneOfEachKind(extensions: seq<Extension>, i: nat, j: nat)
    requires i < |extensions| && extensions[i].ServerName?
    requires j < |extensions| && extensions[j].Protocols?
    requires forall k :: 0 <= k < |extensions| && k != i ==> !extensions[k].ServerName?
    requires forall k :: 0 <= k < |extensions| && k != j ==> !extensions[k].Protocols?
    ensures Said(extensions, Hello("", [])) == Hello(Canonical(extensions[i].name), extensions[j].names)
  {
    hide Canonical, Said;
    SaidAround(extensions, i, Hello("", []));
    SaidAround(extensions, j, Hello("", []));
    NamesAfter(extensions, i);
    ProtocolsAround(extensions, j);
    SaidByOthers(extensions[..j], Hello("", []));
    assert Hello("", []).alpns + extensions[j].names == extensions[j].names;
  }

  lemma NamesAfter(extensions: seq<Extension>, i: nat)
    requires i < |extensions| && forall k :: 0 <= k < |extensions| && k != i ==> !extensions[k].ServerName?
    ensures forall e :: e in extensions[i + 1..] ==> !e.ServerName?
  {
    forall e | e in extensions[i + 1..]
      ensures !e.ServerName?
    {
      var k :| 0 <= k < |extensions| - i - 1 && extensions[i + 1..][k] == e;
      assert extensions[i + 1 + k] == e;
    }
  }

  lemma ProtocolsAround(extensions: seq<Extension>, j: nat)
    requires j < |extensions| && forall k :: 0 <= k < |extensions| && k != j ==> !extensions[k].Protocols?
    ensures forall e :: e in extensions[..j] || e in extensions[j + 1..] ==> !e.Protocols?
  {
    forall e | e in extensions[..j]
      ensures !e.Protocols?
    {
      var k :| 0 <= k < j && extensions[..j][k] == e;
    }
    forall e | e in extensions[j + 1..]
      ensures !e.Protocols?
    {
      var k :| 0 <= k < |extensions| - j - 1 && extensions[j + 1..][k] == e;
      assert extensions[j + 1 + k] == e;
    }
  }

  /** What is said is what one extension says after those before it, unless those after it say otherwise. */
  lemma SaidAround(extensions: seq<Extension>, i: nat, found: Hello)
    requires i < |extensions|
    ensures
      var said := Say(extensions[i], Said(extensions[..i], found));
      var after := extensions[i + 1..];
      && ((forall e :: e in after ==> !e.ServerName?) ==> Said(extensions, found).serverName == said.serverName)
      && ((forall e :: e in after ==> !e.Protocols?) ==> Said(extensions, found).alpns == said.alpns)
  {
    var a, e, b := extensions[..i], extensions[i], extensions[i + 1..];
    assert extensions == a + ([e] + b);
    SaidSplit(a, [e] + b, found);
    SaidFirst(e, b, Said(a, found));
    SaidByOthers(b, Say(e, Said(a, found)));
  }

  lemma SaidFirst(e: Extension, more: seq<Extension>, found: Hello)
    ensures Said([e] + more, found) == Said(more, Say(e, found))
  {
    assert ([e] + more)[1..] == more;
  }

  /*** Deciding on a prefix ***/

  /** The stream starts with a whole ClientHello message of `n` bytes. */
  predicate StartsWithHello(stream: Bytes, n: nat) {
    && 4 <= n <= |stream|
    && stream[0] == 1
    && n == 4 + BigEndian(stream[1..4])
  }

  lemma EncodedHelloStarts(m: Message, after: Bytes)
    requires m.Encodable()
    ensures StartsWithHello(m.Encode() + after, |m.Encode()|)
  {
    hide Message.Body;
    Pow256Values();
    assert (m.Encode() + after)[1..4] == ToBytes(|m.Body()|, 3);
  }

  /** Nothing but a whole ClientHello with a server name is parsed. */
  lemma ParsedHelloStarts(crypto: Bytes)
    requires Parse(crypto).Ok?
    ensures Parse(crypto).value.serverName != "" && exists n: nat :: StartsWithHello(crypto, n) && Parse(crypto[..n]) == Parse(crypto)
  {
    hide BigEndian, ReadExtensions, ExtensionBounds;
    var n := 4 + BigEndian(crypto[1..4]);
    assert StartsWithHello(crypto, n);
    PrefixDecision(crypto, n, |crypto|);
    assert crypto[..|crypto|] == crypto;
  }

  /** Before the message is complete nothing is decided; from then on the verdict is the whole message's. */
  lemma PrefixDecision(stream: Bytes, n: nat, seen: nat)
    requires StartsWithHello(stream, n) && seen <= |stream|
    ensures seen < n ==> Parse(stream[..seen]) == Err(QuicParseError)
    ensures seen >= n ==> Parse(stream[..seen]) == Parse(stream[..n])
  {
    hide BigEndian, ReadBody;
    if seen >= 4 {
      assert stream[..seen][1..4] == stream[1..4] == stream[..n][1..4];
      if seen >= n {
        assert stream[..seen][4..n] == stream[..n][4..n];
      }
    }
  }
}
