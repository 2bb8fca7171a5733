/** What holds over whole runs of the router: order of delivery, replies, pausing, and routing decisions. */
module RouterRuns {
  import opened Wrappers
  import opened ByteStrings
  import opened CryptoFrames
  import opened ConnectionIds
  import opened QuicRoutes
  import opened RouterModel
  import ClientHello
  import QuicVarint

  /*** Looking a session up ***/

  lemma {:induction false} LongestMatchExists(sessions: Sessions, addr: Addr, tail: Bytes, k: Key, cid: Bytes)
    requires Match(sessions, addr, tail, k, cid)
    ensures exists j, other :: LongestMatch(sessions, addr, tail, j, other) && |cid| <= |other|
    decreases |tail| - |cid|
  {
    if !LongestMatch(sessions, addr, tail, k, cid) {
      var j, other :| Match(sessions, addr, tail, j, other) && |other| > |cid|;
      LongestMatchExists(sessions, addr, tail, j, other);
    }
  }

  /** The longest registered ID decides; it has one owner, so the choice in the scan is no choice. */
  lemma ShortHeaderExact(sessions: Sessions, tail: Bytes, addr: Addr)
    requires SessionsOwned(sessions)
    ensures forall k, cid :: LongestMatch(sessions, addr, tail, k, cid) ==> ShortHeaderSession(sessions, tail, addr) == Some(k)
    ensures (forall k, cid :: !Match(sessions, addr, tail, k, cid)) ==>
              forall k :: OnlySession(sessions, addr, k) <==> ShortHeaderSession(sessions, tail, addr) == Some(k)
    ensures ShortHeaderSession(sessions, tail, addr).Some? ==> At(sessions, addr, ShortHeaderSession(sessions, tail, addr).value)
  {
    forall j, k, a, b | LongestMatch(sessions, addr, tail, j, a) && LongestMatch(sessions, addr, tail, k, b)
      ensures j == k
    {
      assert a == tail[..|a|] && b == tail[..|b|];
      assert OwnsCid(sessions, j, a) && OwnsCid(sessions, k, b);
    }
    forall k, cid | Match(sessions, addr, tail, k, cid)
      ensures exists j, other :: LongestMatch(sessions, addr, tail, j, other)
    {
      LongestMatchExists(sessions, addr, tail, k, cid);
    }
  }

  /** A long header goes to the owner of its destination ID at that address, else to the session that its first datagram opened. */
  lemma LongHeaderExact(sessions: Sessions, data: Bytes, ids: Ids, addr: Addr)
    requires SessionsOwned(sessions) && InitialConnectionIds(data) == Ok(ids)
    ensures forall k :: OwnsCid(sessions, k, ids.destination) && At(sessions, addr, k) ==> SessionFor(sessions, data, addr) == Some(k)
    ensures (forall k :: At(sessions, addr, k) ==> !OwnsCid(sessions, k, ids.destination)) ==>
              SessionFor(sessions, data, addr) ==
                var first := Key(addr, ids.destination);
                if first in sessions then Some(first) else None
  {
    hide InitialConnectionIds;
  }

  /** No datagram is ever handed to another client's session. */
  lemma SessionForOwnClient(sessions: Sessions, data: Bytes, addr: Addr)
    requires SessionsOwned(sessions)
    ensures SessionFor(sessions, data, addr).Some? ==> SessionFor(sessions, data, addr).value.client == addr
  {
    hide InitialConnectionIds;
    if data != [] && !IsLongHeader(data) {
      ShortHeaderExact(sessions, data[1..], addr);
    }
  }

  /*** The life of one connection ***/

  /** One connection as the router sees it: what it holds for the upstream, and what it knows of its hello. */
  datatype Slot =
    | Absent
    | Waiting(held: seq<Bytes>, crypto: Fragments)
    | Dialing(held: seq<Bytes>, route: Route)
    | Live(held: seq<Bytes>, route: Route)

  ghost function SlotOf(st: Router, k: Key): Slot {
    if k in st.sessions then Live(st.sessions[k].sent, st.sessions[k].route)
    else if k in st.opening then Dialing(st.opening[k].queue, st.opening[k].task.route)
    else if k in st.collecting then Waiting(st.collecting[k].queue, st.collecting[k].crypto)
    else Absent
  }

  function Held(s: Slot): seq<Bytes> {
    if s.Absent? then [] else s.held
  }

  /** The route that has been decided for it, once one has. */
  function RouteOf(s: Slot): Option<Route> {
    if s.Dialing? || s.Live? then Some(s.route) else None
  }

  function Known(s: Slot): Fragments {
    if s.Waiting? then s.crypto else map[]
  }

  /** The fragments a datagram carries; one that does not decrypt or does not read carries none. */
  function Carried(plaintext: Option<Bytes>): Fragments {
    match plaintext
    case None => map[]
    case Some(text) =>
      match ReadFrames(text, 0, map[])
      case Err(_) => map[]
      case Ok(fragments) => fragments
  }

  /** The ClientHello that fragments make, if they make one. */
  function HelloIn(crypto: Fragments): Option<ClientHello.Hello> {
    match ClientHello.Parse(Assembled(crypto))
    case Err(_) => None
    case Ok(hello) => Some(hello)
  }

  /** The hello names this route, and offers its protocol. */
  ghost predicate NamedRoute(routes: map<string, Route>, route: Route, hello: ClientHello.Hello) {
    hello.serverName in routes && route == routes[hello.serverName] && route.alpn in hello.alpns
  }

  /** What a connection comes to that has sent these fragments and has these datagrams queued. */
  ghost function Settled(held: seq<Bytes>, crypto: Fragments, routes: map<string, Route>): Slot {
    match HelloIn(crypto)
    case None => Waiting(held, crypto)
    case Some(hello) =>
      if hello.serverName in routes && routes[hello.serverName].alpn in hello.alpns then Dialing(held, routes[hello.serverName])
      else Absent
  }

  /** The effect of a datagram on the connection it is for. */
  ghost function Fed(s: Slot, data: Bytes, plaintext: Option<Bytes>, room: bool, routes: map<string, Route>): Slot {
    match s
    case Live(held, route) => Live(held + [data], route)
    case Dialing(held, route) => if |held| < QUEUE_LIMIT then Dialing(held + [data], route) else s
    case _ =>
      if (s.Absent? && !room) || |Held(s)| >= QUEUE_LIMIT then Absent
      else Settled(Held(s) + [data], Known(s) + Carried(plaintext), routes)
  }

  /** The connection a datagram from a client is for: its session, or the one it asks to open. */
  ghost function Destination(st: Router, e: Event): Option<Key> {
    if !e.ClientDatagram? then None else
      match SessionFor(st.sessions, e.data, e.addr)
      case Some(k) => Some(k)
      case None =>
        match InitialConnectionIds(e.data)
        case Ok(ids) => Some(Key(e.addr, ids.destination))
        case Err(_) => None
  }

  /** Its open has reached the await and can end. */
  ghost predicate Connecting(st: Router, k: Key) {
    k in st.opening && st.opening[k].task.connecting
  }

  /** It has been collecting for too long, or its session has been idle beyond its timeout. */
  ghost predicate Expired(st: Router, k: Key, now: int) {
    || (k in st.collecting && now - st.collecting[k].seen > PENDING_SECONDS * SECOND)
    || (k in st.sessions && now - st.sessions[k].lastSeen > st.sessions[k].timeout * SECOND)
  }

  /**
   * What an event does to a connection: only its own datagrams feed it, only its own open ends an
   * opening, and the reaper takes exactly what has expired, which an opening never does.
   */
  ghost predicate Moves(st: Router, e: Event, k: Key, s: Slot, t: Slot) {
    match e
    case ClientDatagram(data, _, plaintext, _) =>
      t == if Destination(st, e) == Some(k) then Fed(s, data, plaintext, |st.Pending()| < PENDING_LIMIT, st.routes) else s
    case OpenSucceeds(j, _) => if j == k && Connecting(st, k) then s.Dialing? && t == Live(s.held, s.route) else t == s
    case OpenFails(j) => t == if j == k && Connecting(st, k) then Absent else s
    case ReaperTick(now) => t == (if Expired(st, k, now) then Absent else s) && (s.Dialing? ==> t == s)
    case _ => t == s
  }

  /** Every packet adds its fragments to those held, and the hello is what they make together. */
  lemma InspectIs(held: Fragments, plaintext: Option<Bytes>)
    requires HelloIn(held).None?
    ensures Inspect(held, plaintext) == Inspection(held + Carried(plaintext), HelloIn(held + Carried(plaintext)))
  {
    hide ReadFrames, Assembled, ClientHello.Parse;
    assert held + map[] == held;
  }

  lemma CollectOther(st: Router, j: Key, c: Collecting, plaintext: Option<Bytes>, scid: Bytes, k: Key)
    requires k != j
    ensures SlotOf(Collect(st, j, c, plaintext, scid), k) == SlotOf(st, k)
  {
    hide Inspect, Routable;
  }

  lemma CollectOwn(st: Router, k: Key, c: Collecting, plaintext: Option<Bytes>, scid: Bytes)
    requires k !in st.sessions && k !in st.opening && HelloIn(c.crypto).None?
    ensures SlotOf(Collect(st, k, c, plaintext, scid), k) == Settled(c.queue, c.crypto + Carried(plaintext), st.routes)
  {
    hide Inspect, HelloIn, Carried;
    InspectIs(c.crypto, plaintext);
  }

  lemma CollectSlot(st: Router, j: Key, c: Collecting, plaintext: Option<Bytes>, scid: Bytes, k: Key)
    requires j !in st.sessions && j !in st.opening && HelloIn(c.crypto).None?
    ensures
      SlotOf(Collect(st, j, c, plaintext, scid), k) ==
        if k == j then Settled(c.queue, c.crypto + Carried(plaintext), st.routes) else SlotOf(st, k)
  {
    hide Collect, SlotOf, Settled, HelloIn, Carried;
    if k == j {
      CollectOwn(st, j, c, plaintext, scid);
    } else {
      CollectOther(st, j, c, plaintext, scid, k);
    }
  }

  /** A connection that is collecting has not sent a hello yet. */
  lemma NoHelloYet(st: Router, k: Key)
    requires Undecided(st.collecting)
    ensures HelloIn(map[]).None? && (k in st.collecting ==> HelloIn(st.collecting[k].crypto).None?)
  {
    hide Assembled, ClientHello.Parse;
    EmptyUndecided();
  }

  lemma OtherOpening(st: Router, j: Key, o: Opening, k: Key)
    requires k != j
    ensures SlotOf(st.(opening := st.opening[j := o]), k) == SlotOf(st, k)
  {
  }

  lemma OtherGone(st: Router, j: Key, k: Key)
    requires k != j
    ensures SlotOf(st.(collecting := st.collecting - {j}), k) == SlotOf(st, k)
  {
  }

  lemma AdmitOther(st: Router, data: Bytes, ids: Ids, addr: Addr, plaintext: Option<Bytes>, now: int, k: Key)
    requires Undecided(st.collecting)
    requires Key(addr, ids.destination) !in st.sessions && k != Key(addr, ids.destination)
    ensures SlotOf(Admit(st, data, ids, addr, plaintext, now), k) == SlotOf(st, k)
  {
    hide Collect, HelloIn, Settled, Carried, Undecided, SlotOf;
    var j := Key(addr, ids.destination);
    NoHelloYet(st, j);
    if j in st.opening {
      OtherOpening(st, j, st.opening[j].(queue := st.opening[j].queue + [data]), k);
    } else {
      OtherGone(st, j, k);
      var c := if j in st.collecting then st.collecting[j] else Collecting([], map[], now, now);
      CollectSlot(st, j, c.(queue := c.queue + [data], seen := now), plaintext, ids.source, k);
    }
  }

  lemma AdmitOwn(st: Router, data: Bytes, ids: Ids, addr: Addr, plaintext: Option<Bytes>, now: int)
    requires Key(addr, ids.destination) !in st.sessions && Key(addr, ids.destination) !in st.opening
    requires Undecided(st.collecting) && forall j :: j in st.collecting ==> 0 < |st.collecting[j].queue|
    ensures
      var k := Key(addr, ids.destination);
      SlotOf(Admit(st, data, ids, addr, plaintext, now), k) ==
        Fed(SlotOf(st, k), data, plaintext, |st.Pending()| < PENDING_LIMIT, st.routes)
  {
    hide Collect, HelloIn, Settled, Carried, Undecided;
    var k := Key(addr, ids.destination);
    NoHelloYet(st, k);
    var c := if k in st.collecting then st.collecting[k] else Collecting([], map[], now, now);
    assert c.queue == Held(SlotOf(st, k)) && c.crypto == Known(SlotOf(st, k));
    CollectSlot(st, k, c.(queue := c.queue + [data], seen := now), plaintext, ids.source, k);
  }

  lemma AdmitSlot(st: Router, data: Bytes, ids: Ids, addr: Addr, plaintext: Option<Bytes>, now: int, k: Key)
    requires Inv(st) && Key(addr, ids.destination) !in st.sessions
    ensures
      SlotOf(Admit(st, data, ids, addr, plaintext, now), k) ==
        if k == Key(addr, ids.destination) then Fed(SlotOf(st, k), data, plaintext, |st.Pending()| < PENDING_LIMIT, st.routes)
        else SlotOf(st, k)
  {
    hide Collect, OnePhase, SessionsOwned, PausedForAwaiting, Undecided;
    if k != Key(addr, ids.destination) {
      hide Admit, SlotOf, Fed;
      AdmitOther(st, data, ids, addr, plaintext, now, k);
    } else if k !in st.opening {
      hide Admit, SlotOf, Fed;
      AdmitOwn(st, data, ids, addr, plaintext, now);
    }
  }

  lemma RegisterKeeps(st: Router, k: Key, cid: Bytes, j: Key)
    requires k in st.sessions
    ensures
      var post := Register(st, k, cid);
      && post == st.(sessions := post.sessions)
      && (j in post.sessions <==> j in st.sessions)
      && (j in st.sessions ==>
            && post.sessions[j].client == st.sessions[j].client
            && post.sessions[j].sent == st.sessions[j].sent && post.sessions[j].route == st.sessions[j].route)
  {
  }

  lemma ReleaseSlot(st: Router, j: Key, k: Key)
    ensures SlotOf(Release(st, j), k) == SlotOf(st, k) && Release(st, j).replies == st.replies
  {
  }

  lemma NamedSlot(st: Router, j: Key, heard: SessionState, announced: Option<Bytes>, k: Key)
    requires j in st.sessions && heard.sent == st.sessions[j].sent && heard.route == st.sessions[j].route
    ensures
      var counted := st.(sessions := st.sessions[j := heard]);
      var named := if announced.Some? then Register(counted, j, announced.value) else counted;
      SlotOf(named, k) == SlotOf(st, k)
  {
    hide Register;
    var counted := st.(sessions := st.sessions[j := heard]);
    if announced.Some? {
      RegisterKeeps(counted, j, announced.value, k);
    }
  }

  lemma ReplySlot(st: Router, j: Key, data: Bytes, now: int, k: Key)
    requires j in st.sessions
    ensures SlotOf(Reply(st, j, data, now), k) == SlotOf(st, k)
    ensures Reply(st, j, data, now).replies == st.replies + [(data, st.sessions[j].client)]
  {
    hide AnnouncedCid, Register, Release;
    var s := st.sessions[j];
    var heard := s.(received := s.received + 1, lastSeen := now);
    var announced := AnnouncedCid(data);
    NamedSlot(st, j, heard, announced, k);
    var counted := st.(sessions := st.sessions[j := heard]);
    var named := if announced.Some? then Register(counted, j, announced.value) else counted;
    ReleaseSlot(named.(replies := st.replies + [(data, s.client)]), j, k);
  }

  lemma ForwardSlot(st: Router, j: Key, data: Bytes, now: int, k: Key)
    requires j in st.sessions
    ensures SlotOf(Forward(st, j, data, now), k) == if k == j then Live(SlotOf(st, k).held + [data], SlotOf(st, k).route) else SlotOf(st, k)
  {
  }

  lemma ReceiveSlot(st: Router, e: Event, k: Key)
    requires Inv(st) && e.ClientDatagram?
    ensures Moves(st, e, k, SlotOf(st, k), SlotOf(Receive(st, e.data, e.addr, e.plaintext, e.now), k))
  {
    hide Inv, InitialConnectionIds, Admit, SessionFor, Forward, SlotOf;
    var found := SessionFor(st.sessions, e.data, e.addr);
    if found.Some? {
      ForwardSlot(st, found.value, e.data, e.now, k);
      SessionIsLive(st, found.value);
    } else if InitialConnectionIds(e.data).Ok? {
      AdmitSlot(st, e.data, InitialConnectionIds(e.data).value, e.addr, e.plaintext, e.now, k);
    }
  }

  lemma SessionIsLive(st: Router, k: Key)
    ensures k in st.sessions <==> SlotOf(st, k).Live?
  {
  }

  lemma ReapSlot(st: Router, now: int, k: Key)
    requires Inv(st)
    ensures
      var s, t := SlotOf(st, k), SlotOf(Reap(st, now), k);
      t == (if Expired(st, k, now) then Absent else s) && (s.Dialing? ==> t == s)
  {
    hide Bounded, SessionsOwned, Undecided, PausedForAwaiting;
    var stale, idle := StalePending(st, now), IdleSessions(st, now);
    assert k in stale + idle <==> Expired(st, k, now);
    hide StalePending, IdleSessions;
    assert Reap(st, now).sessions == st.sessions - idle;
    assert Reap(st, now).collecting == st.collecting - stale;
    assert Reap(st, now).opening == st.opening;
  }

  lemma BeginSlot(st: Router, j: Key, k: Key)
    ensures SlotOf(Begin(st, j), k) == SlotOf(st, k)
  {
  }

  lemma OpenedSlot(st: Router, j: Key, now: int, k: Key)
    requires j !in st.sessions
    ensures
      var s, t := SlotOf(st, k), SlotOf(Opened(st, j, now), k);
      if j == k && Connecting(st, k) then s.Dialing? && t == Live(s.held, s.route) else t == s
  {
  }

  lemma OpenFailedSlot(st: Router, j: Key, k: Key)
    requires j !in st.sessions && j !in st.collecting
    ensures
      var s, t := SlotOf(st, k), SlotOf(OpenFailed(st, j), k);
      t == if j == k && Connecting(st, k) then Absent else s
  {
  }

  lemma OpenSlot(st: Router, j: Key, now: int, k: Key)
    requires Inv(st)
    ensures
      var s := SlotOf(st, k);
      && (if j == k && Connecting(st, k) then s.Dialing? && SlotOf(Opened(st, j, now), k) == Live(s.held, s.route)
          else SlotOf(Opened(st, j, now), k) == s)
      && SlotOf(OpenFailed(st, j), k) == (if j == k && Connecting(st, k) then Absent else s)
  {
    PendingFacts(st, j);
    hide SlotOf, Inv;
    if j in st.opening {
      OpenedSlot(st, j, now, k);
      OpenFailedSlot(st, j, k);
    }
  }

  /** Seen from any one connection, every step of the router is one of its moves. */
  lemma StepMoves(st: Router, e: Event, k: Key)
    requires Inv(st)
    ensures Moves(st, e, k, SlotOf(st, k), SlotOf(Step(st, e), k))
  {
    match e
    case ClientDatagram(data, addr, plaintext, now) =>
      hide SlotOf, Inv, Moves, Receive;
      ReceiveSlot(st, e, k);
    case OpenBegins(j) =>
      hide SlotOf, Inv, Begin;
      BeginSlot(st, j, k);
    case OpenSucceeds(j, now) =>
      hide SlotOf, Inv, Opened;
      OpenSlot(st, j, now, k);
    case OpenFails(j) =>
      hide SlotOf, Inv, OpenFailed;
      OpenSlot(st, j, 0, k);
    case UpstreamDatagram(j, data, now) =>
      hide SlotOf, Inv, Reply;
      if j in st.sessions {
        ReplySlot(st, j, data, now, k);
      }
    case PauseTimer(j) => hide Inv;
    case ReaperTick(now) =>
      hide SlotOf, Inv, Reap;
      ReapSlot(st, now, k);
    case Reload(document) => hide Inv;
  }

  /*** Forwarding is first in, first out ***/

  /** Only a full queue behind an opening session refuses a datagram without giving the connection up. */
  ghost predicate Accepts(st: Router, e: Event, k: Key) {
    Destination(st, e) == Some(k) && !(k in st.opening && |st.opening[k].queue| >= QUEUE_LIMIT)
  }

  /** Places in the run of the datagrams accepted for `k` since it was last absent. */
  ghost function Accepted(events: seq<Event>, k: Key): seq<nat> {
    if events == [] || SlotOf(Run(START, events), k) == Absent then [] else
      var before, n := events[..|events| - 1], |events| - 1;
      if Accepts(Run(START, before), events[n], k) then Accepted(before, k) + [n] else Accepted(before, k)
  }

  /** One step adds exactly the datagram it accepts, at the end, and takes nothing away. */
  lemma StepHolds(st: Router, e: Event, k: Key)
    requires Inv(st) && SlotOf(Step(st, e), k) != Absent
    ensures Held(SlotOf(Step(st, e), k)) == Held(SlotOf(st, k)) + (if Accepts(st, e, k) then [e.data] else [])
  {
    hide Inv, Step, HelloIn, Carried;
    StepMoves(st, e, k);
    OpeningIsNotOpen(st, k);
    var s := SlotOf(st, k);
    assert Held(s) + [] == Held(s);
  }

  lemma OpeningIsNotOpen(st: Router, k: Key)
    requires Inv(st)
    ensures k in st.opening <==> SlotOf(st, k).Dialing?
    ensures k in st.opening ==> SlotOf(st, k).held == st.opening[k].queue
    ensures k in st.collecting <==> SlotOf(st, k).Waiting?
  {
    hide Bounded, SessionsOwned, Undecided, PausedForAwaiting;
  }

  lemma AcceptedFromOwnClient(st: Router, e: Event, k: Key)
    requires Inv(st)
    ensures Destination(st, e) == Some(k) ==> e.ClientDatagram? && e.addr == k.client
  {
    hide InitialConnectionIds, SessionsOwned, SessionFor;
    if e.ClientDatagram? {
      SessionForOwnClient(st.sessions, e.data, e.addr);
    }
  }

  /** `held` is the data of the events at the places `at`, which rise, and each came from `k`'s client. */
  ghost predicate InOrder(events: seq<Event>, k: Key, at: seq<nat>, held: seq<Bytes>) {
    && |at| == |held|
    && (forall i, j :: 0 <= i < j < |at| ==> at[i] < at[j])
    && (forall i :: 0 <= i < |at| ==>
          at[i] < |events| && events[at[i]].ClientDatagram? && events[at[i]].addr == k.client && events[at[i]].data == held[i])
  }

  lemma InOrderGrows(before: seq<Event>, e: Event, k: Key, at: seq<nat>, held: seq<Bytes>)
    requires InOrder(before, k, at, held)
    ensures InOrder(before + [e], k, at, held)
    ensures e.ClientDatagram? && e.addr == k.client ==> InOrder(before + [e], k, at + [|before|], held + [e.data])
  {
  }

  /**
   * In every run, what a connection's upstream was sent (or will be sent, while it is queued) is, in
   * order of arrival and without repetition, the datagrams accepted for it since it began, and all of
   * them came from its own client.
   */
  lemma {:induction false} ForwardingIsFifo(events: seq<Event>, k: Key)
    ensures InOrder(events, k, Accepted(events, k), Held(SlotOf(Run(START, events), k)))
  {
    if events == [] {
      NothingInOrder([], k);
    } else {
      hide InOrder, Run, Accepted, SlotOf;
      var before, e := events[..|events| - 1], events[|events| - 1];
      assert events == before + [e];
      ForwardingIsFifo(before, k);
      FifoStep(before, e, k);
    }
  }

  lemma FifoStep(before: seq<Event>, e: Event, k: Key)
    requires InOrder(before, k, Accepted(before, k), Held(SlotOf(Run(START, before), k)))
    ensures InOrder(before + [e], k, Accepted(before + [e], k), Held(SlotOf(Run(START, before + [e]), k)))
  {
    hide Step, Run, Accepts, Accepted, Inv, SlotOf, InOrder, Destination;
    var st := Run(START, before);
    NothingInOrder(before + [e], k);
    AcceptedGrows(before, e, k);
    RunKeepsInv(before);
    AcceptsIsDestination(st, e, k);
    AcceptedFromOwnClient(st, e, k);
    InOrderGrows(before, e, k, Accepted(before, k), Held(SlotOf(st, k)));
    if SlotOf(Step(st, e), k) != Absent {
      StepHolds(st, e, k);
      assert Held(SlotOf(st, k)) + [] == Held(SlotOf(st, k));
    }
  }

  lemma NothingInOrder(events: seq<Event>, k: Key)
    ensures InOrder(events, k, [], [])
    ensures Accepted([], k) == [] && SlotOf(Run(START, []), k) == Absent
  {
  }

  lemma AcceptedGrows(before: seq<Event>, e: Event, k: Key)
    ensures
      var st, events := Run(START, before), before + [e];
      && Run(START, events) == Step(st, e)
      && Accepted(events, k) ==
         if SlotOf(Step(st, e), k) == Absent then []
         else if Accepts(st, e, k) then Accepted(before, k) + [|before|]
         else Accepted(before, k)
  {
    hide Step, Accepts, SlotOf;
    assert (before + [e])[..|before|] == before;
  }

  lemma AcceptsIsDestination(st: Router, e: Event, k: Key)
    ensures Accepts(st, e, k) ==> Destination(st, e) == Some(k)
  {
  }

  /*** Replies go back to the client of the session ***/

  ghost function RepliesOwed(events: seq<Event>): seq<(Bytes, Addr)> {
    if events == [] then [] else
      var before, e := events[..|events| - 1], events[|events| - 1];
      RepliesOwed(before) +
      if e.UpstreamDatagram? && e.k in Run(START, before).sessions then [(e.data, e.k.client)] else []
  }

  lemma QuietAdmission(st: Router, data: Bytes, ids: Ids, addr: Addr, plaintext: Option<Bytes>, now: int)
    ensures
      var post := Admit(st, data, ids, addr, plaintext, now);
      post == st.(collecting := post.collecting, opening := post.opening)
  {
    hide Collect;
    var k := Key(addr, ids.destination);
    var c := if k in st.collecting then st.collecting[k] else Collecting([], map[], now, now);
    QuietCollect(st, k, c.(queue := c.queue + [data], seen := now), plaintext, ids.source);
  }

  lemma QuietCollect(st: Router, k: Key, c: Collecting, plaintext: Option<Bytes>, scid: Bytes)
    ensures
      var post := Collect(st, k, c, plaintext, scid);
      post == st.(collecting := post.collecting, opening := post.opening)
  {
    hide Inspect, Routable;
  }

  lemma QuietSteps(st: Router, e: Event)
    ensures !e.UpstreamDatagram? ==> Step(st, e).replies == st.replies
  {
    hide InitialConnectionIds, SessionFor, Admit, Reply;
    if e.ClientDatagram? && InitialConnectionIds(e.data).Ok? {
      QuietAdmission(st, e.data, InitialConnectionIds(e.data).value, e.addr, e.plaintext, e.now);
    }
  }

  lemma StepReplies(st: Router, e: Event)
    requires Inv(st)
    ensures Step(st, e).replies == st.replies +
      if e.UpstreamDatagram? && e.k in st.sessions then [(e.data, e.k.client)] else []
  {
    hide Bounded, Undecided, PausedForAwaiting, SessionsOwned, Reply;
    assert st.replies + [] == st.replies;
    if !e.UpstreamDatagram? {
      hide Step;
      QuietSteps(st, e);
    } else if e.k in st.sessions {
      ReplySlot(st, e.k, e.data, e.now, e.k);
      SessionClient(st.sessions, e.k);
    }
  }

  /** Every upstream datagram of a live session, and nothing else, goes out, in order, to that session's client. */
  lemma {:induction false} RepliesReachTheirClient(events: seq<Event>)
    ensures Run(START, events).replies == RepliesOwed(events)
  {
    if events != [] {
      hide Step, Inv;
      RepliesReachTheirClient(events[..|events| - 1]);
      RunKeepsInv(events[..|events| - 1]);
      StepReplies(Run(START, events[..|events| - 1]), events[|events| - 1]);
    }
  }

  /*** Pausing ***/

  /** The event ends the pause for `k`: its first answer, its timer, or its removal. */
  ghost predicate Releases(st: Router, e: Event, k: Key) {
    match e
    case UpstreamDatagram(j, _, _) => j == k
    case PauseTimer(j) => j == k
    case ReaperTick(now) => Expired(st, k, now)
    case _ => false
  }

  /** A connection is awaited from its opening on, until the first event that releases it, and nothing else is. */
  lemma AwaitedExactly(st: Router, e: Event, k: Key)
    requires Inv(st)
    ensures k in Step(st, e).awaiting <==>
            (e.OpenSucceeds? && e.k == k && Connecting(st, k)) || (k in st.awaiting && !Releases(st, e, k))
  {
    hide Bounded, SessionsOwned, Undecided;
    match e
    case ClientDatagram(data, addr, plaintext, now) =>
      hide InitialConnectionIds, SessionFor, Admit;
      if InitialConnectionIds(data).Ok? {
        QuietAdmission(st, data, InitialConnectionIds(data).value, addr, plaintext, now);
      }
    case UpstreamDatagram(j, data, now) =>
      hide AnnouncedCid, Register;
      if j in st.sessions {
        RegisterKeepsAwaiting(st, j, data, now);
      }
    case _ =>
  }

  lemma RegisterKeepsAwaiting(st: Router, k: Key, data: Bytes, now: int)
    requires k in st.sessions
    ensures
      var first := st.sessions[k].received == 0;
      Reply(st, k, data, now).awaiting == if first then st.awaiting - {k} else st.awaiting
  {
    hide AnnouncedCid, RegisterIn;
  }

  /** Whatever the state, once the outstanding timers have fired, in any order, reading has resumed. */
  lemma {:induction false} TimersResumeReading(st: Router, order: seq<Key>)
    requires Inv(st)
    requires forall k :: k in st.awaiting ==> k in order
    ensures
      var post := Run(st, seq(|order|, i requires 0 <= i < |order| => PauseTimer(order[i])));
      post == st.(awaiting := {}, paused := false)
  {
    FiredSoFar(st, order, |order|);
    assert order[..|order|] == order;
    assert st.awaiting - Elements(order) == {};
  }

  lemma {:induction false} FiredSoFar(st: Router, order: seq<Key>, n: nat)
    requires PausedForAwaiting(st.sessions, st.awaiting, st.paused) && n <= |order|
    ensures
      var still := st.awaiting - Elements(order[..n]);
      Run(st, seq(n, i requires 0 <= i < n => PauseTimer(order[i]))) == st.(awaiting := still, paused := still != {})
  {
    var fired := seq(n, i requires 0 <= i < n => PauseTimer(order[i]));
    if n == 0 {
      assert st.awaiting - Elements(order[..0]) == st.awaiting;
    } else {
      FiredSoFar(st, order, n - 1);
      assert fired[..n - 1] == seq(n - 1, i requires 0 <= i < n - 1 => PauseTimer(order[i]));
      assert fired[n - 1] == PauseTimer(order[n - 1]);
      assert order[..n] == order[..n - 1] + [order[n - 1]];
      assert st.awaiting - Elements(order[..n]) == st.awaiting - Elements(order[..n - 1]) - {order[n - 1]};
    }
  }

  ghost function Elements(keys: seq<Key>): set<Key> {
    set k | k in keys
  }

  /*** What a connection has sent ***/

  function CarriedBy(e: Event): Fragments {
    if e.ClientDatagram? then Carried(e.plaintext) else map[]
  }

  ghost predicate Places(events: seq<Event>, at: seq<nat>) {
    forall i :: 0 <= i < |at| ==> at[i] < |events|
  }

  /** The fragments of the datagrams at these places, a later one replacing an earlier one at its offset. */
  ghost function Gathered(events: seq<Event>, at: seq<nat>): Fragments
    requires Places(events, at)
  {
    if at == [] then map[] else Gathered(events, at[..|at| - 1]) + CarriedBy(events[at[|at| - 1]])
  }

  lemma {:induction false} GatheredMore(before: seq<Event>, e: Event, at: seq<nat>)
    requires Places(before, at)
    ensures Places(before + [e], at) && Gathered(before + [e], at) == Gathered(before, at)
    ensures Places(before + [e], at + [|before|])
    ensures Gathered(before + [e], at + [|before|]) == Gathered(before, at) + CarriedBy(e)
  {
    hide CarriedBy;
    if at != [] {
      GatheredMore(before, e, at[..|at| - 1]);
    }
    assert (at + [|before|])[..|at|] == at;
  }

  lemma AcceptedPlaces(events: seq<Event>, k: Key)
    ensures Places(events, Accepted(events, k))
  {
    hide Accepted, SlotOf, Run;
    ForwardingIsFifo(events, k);
  }

  /** What `k` has sent of its hello, in the datagrams accepted for it since it began. */
  ghost function Sent(events: seq<Event>, k: Key): Fragments {
    AcceptedPlaces(events, k);
    Gathered(events, Accepted(events, k))
  }

  lemma SentGrows(before: seq<Event>, e: Event, k: Key)
    ensures
      var st := Run(START, before);
      Sent(before + [e], k) ==
        if SlotOf(Step(st, e), k) == Absent then map[]
        else if Accepts(st, e, k) then Sent(before, k) + CarriedBy(e)
        else Sent(before, k)
  {
    hide Step, SlotOf, Accepts, Accepted, CarriedBy, Run;
    AcceptedGrows(before, e, k);
    AcceptedPlaces(before, k);
    GatheredMore(before, e, Accepted(before, k));
  }

  lemma NothingSent(events: seq<Event>, k: Key)
    requires SlotOf(Run(START, events), k) == Absent
    ensures Sent(events, k) == map[]
  {
  }

  /*** Routing decisions ***/

  /** Without a datagram of its own a connection stays, opens or goes. */
  lemma FedOrQuiet(st: Router, e: Event, k: Key, s: Slot, t: Slot)
    requires Moves(st, e, k, s, t)
    ensures Destination(st, e) == Some(k) ==>
              e.ClientDatagram? && t == Fed(s, e.data, e.plaintext, |st.Pending()| < PENDING_LIMIT, st.routes)
    ensures Destination(st, e) != Some(k) ==> t == s || t == Absent || (s.Dialing? && t == Live(s.held, s.route))
  {
    hide Destination, Fed, Expired, Connecting;
    assert e.ClientDatagram? || Destination(st, e) != Some(k) by {
      OnlyDatagramsHaveDestinations(st, e);
    }
  }

  lemma OnlyDatagramsHaveDestinations(st: Router, e: Event)
    ensures Destination(st, e).Some? ==> e.ClientDatagram?
  {
    hide InitialConnectionIds, SessionFor;
  }

  /** What a connection knows is what it has sent, and it is decided by the datagram that completes the hello. */
  lemma StepTells(before: seq<Event>, e: Event, k: Key)
    requires SlotOf(Run(START, before), k).Waiting? ==> Known(SlotOf(Run(START, before), k)) == Sent(before, k)
    ensures
      var st := Run(START, before);
      var s, t, sent := SlotOf(st, k), SlotOf(Step(st, e), k), Sent(before + [e], k);
      && (t.Waiting? ==> Known(t) == sent && (HelloIn(sent).None? || t == s))
      && (RouteOf(t).Some? && RouteOf(t) != RouteOf(s) ==>
            && RouteOf(s) == None && Accepts(st, e, k)
            && HelloIn(sent).Some? && NamedRoute(st.routes, t.route, HelloIn(sent).value))
  {
    hide Step, SlotOf, HelloIn, Carried, Run, Inv, Destination, Moves, Sent;
    var st := Run(START, before);
    RunKeepsInv(before);
    OpeningIsNotOpen(st, k);
    StepMoves(st, e, k);
    FedOrQuiet(st, e, k, SlotOf(st, k), SlotOf(Step(st, e), k));
    SentGrows(before, e, k);
    if SlotOf(st, k) == Absent {
      NothingSent(before, k);
    }
  }

  /**
   * The event at `i` brought `k` the rest of its hello, and the hello named this route in the table of
   * that moment; `k` had none before and has had this one since.
   */
  ghost predicate ChosenAt(events: seq<Event>, i: nat, k: Key, route: Route) {
    && i < |events|
    && Accepts(Run(START, events[..i]), events[i], k)
    && RouteOf(SlotOf(Run(START, events[..i]), k)) == None
    && HelloIn(Sent(events[..i + 1], k)).Some?
    && NamedRoute(Run(START, events[..i]).routes, route, HelloIn(Sent(events[..i + 1], k)).value)
    && forall j :: i < j <= |events| ==> RouteOf(SlotOf(Run(START, events[..j]), k)) == Some(route)
  }

  lemma ChosenStill(before: seq<Event>, e: Event, i: nat, k: Key, route: Route)
    requires ChosenAt(before, i, k, route) && RouteOf(SlotOf(Run(START, before + [e]), k)) == Some(route)
    ensures ChosenAt(before + [e], i, k, route)
  {
    hide Run, SlotOf, Accepts, HelloIn, Sent, NamedRoute;
    var events := before + [e];
    assert events[..i] == before[..i] && events[..i + 1] == before[..i + 1] && events[..|events|] == events;
    forall j | i < j < |events|
      ensures events[..j] == before[..j]
    {
    }
  }

  lemma ChosenNow(before: seq<Event>, e: Event, k: Key, route: Route)
    requires
      var st, sent := Run(START, before), Sent(before + [e], k);
      && RouteOf(SlotOf(st, k)) == None && Accepts(st, e, k)
      && HelloIn(sent).Some? && NamedRoute(st.routes, route, HelloIn(sent).value)
    requires RouteOf(SlotOf(Run(START, before + [e]), k)) == Some(route)
    ensures ChosenAt(before + [e], |before|, k, route)
  {
    hide Run, SlotOf, Accepts, HelloIn, Sent, NamedRoute;
    var events := before + [e];
    assert events[..|before|] == before && events[..|before| + 1] == events && events[..|events|] == events;
  }

  ghost predicate Chosen(events: seq<Event>, k: Key, route: Route) {
    exists i: nat :: ChosenAt(events, i, k, route)
  }

  lemma {:induction false} ToldByWhatItSent(events: seq<Event>, k: Key)
    ensures
      var s := SlotOf(Run(START, events), k);
      && (s.Waiting? ==> Known(s) == Sent(events, k))
      && (RouteOf(s).Some? ==> Chosen(events, k, s.route))
  {
    if events == [] {
      NothingInOrder([], k);
    } else {
      hide Step, SlotOf, Sent, ChosenAt, HelloIn, Accepts, NamedRoute;
      var before, e := events[..|events| - 1], events[|events| - 1];
      assert events == before + [e];
      ToldByWhatItSent(before, k);
      StepTells(before, e, k);
      var s, t := SlotOf(Run(START, before), k), SlotOf(Run(START, events), k);
      if RouteOf(t).Some? {
        if RouteOf(t) == RouteOf(s) {
          var i: nat :| ChosenAt(before, i, k, s.route);
          ChosenStill(before, e, i, k, t.route);
        } else {
          ChosenNow(before, e, k, t.route);
        }
      }
    }
  }

  /**
   * In every run, a connection that is collecting holds exactly what its accepted datagrams carried, and
   * that does not make a hello; one that is opening or open was decided by the datagram that completed
   * its hello, for the route that this hello named in the table of that moment.
   */
  lemma RoutedByWhatItSent(events: seq<Event>, k: Key)
    ensures
      var st := Run(START, events);
      && (k in st.collecting ==> st.collecting[k].crypto == Sent(events, k) && HelloIn(Sent(events, k)).None?)
      && (k in st.opening ==> Chosen(events, k, st.opening[k].task.route))
      && (k in st.sessions ==> Chosen(events, k, st.sessions[k].route))
  {
    hide Inv, Run, Sent, ChosenAt, HelloIn, Undecided;
    var st := Run(START, events);
    ToldByWhatItSent(events, k);
    RunKeepsInv(events);
    StillUndecided(st);
    OpeningIsNotOpen(st, k);
    NoHelloYet(st, k);
  }

  lemma StillUndecided(st: Router)
    requires Inv(st)
    ensures Undecided(st.collecting)
  {
    hide OnePhase, SessionsOwned, Bounded, PausedForAwaiting, Undecided;
  }

  /*** Routing an honest client ***/

  ghost predicate AllCovered(held: Fragments, n: nat) {
    forall p: nat :: p < n ==> Covered(held, p)
  }

  lemma CoverageLength(held: Fragments, stream: Bytes, n: nat)
    requires SlicesOf(held, stream)
    ensures Assembled(held) <= stream
    ensures |Assembled(held)| >= n <==> AllCovered(held, n)
  {
    hide Assembled, SlicesOf, Covered;
    AssembledIsMaximalPrefix(held, stream);
    var r := Assembled(held);
    assert r <= stream && r == stream[..|r|];
    assert !Covered(held, |Assembled(held)|);
  }

  lemma CoverageDecides(held: Fragments, stream: Bytes, n: nat)
    requires ClientHello.StartsWithHello(stream, n) && SlicesOf(held, stream)
    ensures
      var verdict := ClientHello.Parse(Assembled(held));
      if AllCovered(held, n) then verdict == ClientHello.Parse(stream[..n]) else verdict.Err?
  {
    hide ClientHello.Parse, ClientHello.StartsWithHello, AllCovered, Assembled, SlicesOf;
    CoverageLength(held, stream, n);
    assert Assembled(held) == stream[..|Assembled(held)|];
    ClientHello.PrefixDecision(stream, n, |Assembled(held)|);
  }

  /**
   * Slices of one stream make a hello exactly when every byte of the whole hello is among them, in
   * whatever order they came, and it is the whole hello.
   */
  lemma DecisionIsExact(held: Fragments, stream: Bytes, n: nat)
    requires ClientHello.StartsWithHello(stream, n) && SlicesOf(held, stream)
    ensures HelloIn(held).Some? <==> AllCovered(held, n) && ClientHello.Parse(stream[..n]).Ok?
    ensures HelloIn(held).Some? ==> ClientHello.Parse(stream[..n]) == Ok(HelloIn(held).value)
  {
    hide ClientHello.Parse, ClientHello.StartsWithHello, SlicesOf, Assembled, AllCovered;
    CoverageDecides(held, stream, n);
  }

  /** The client of `k` sends only slices of `stream` in the packets that ask to open `k`. */
  ghost predicate Honest(e: Event, k: Key, stream: Bytes) {
    e.ClientDatagram? && e.addr == k.client ==>
      match InitialConnectionIds(e.data)
      case Err(_) => true
      case Ok(ids) => ids.destination == k.dcid ==> SlicesOf(CarriedBy(e), stream)
  }

  lemma NothingIsASlice(stream: Bytes)
    ensures SlicesOf(map[], stream)
  {
  }

  lemma HonestFrames(st: Router, e: Event, k: Key, stream: Bytes)
    requires Inv(st) && Honest(e, k, stream) && Accepts(st, e, k) && k !in st.sessions
    ensures SlicesOf(CarriedBy(e), stream)
  {
    hide Inv, CarriedBy, SlicesOf, InitialConnectionIds;
  }

  lemma {:induction false} SentHonestly(events: seq<Event>, k: Key, stream: Bytes)
    requires forall e :: e in events ==> Honest(e, k, stream)
    ensures k !in Run(START, events).sessions ==> SlicesOf(Sent(events, k), stream)
  {
    hide Step, SlotOf, Sent, SlicesOf, Honest, CarriedBy, Inv, Accepts;
    NothingIsASlice(stream);
    if events == [] {
      NothingInOrder([], k);
      NothingSent([], k);
    } else {
      var before, e := events[..|events| - 1], events[|events| - 1];
      var st := Run(START, before);
      assert events == before + [e];
      SentHonestly(before, k, stream);
      RunKeepsInv(before);
      SentGrows(before, e, k);
      StepMoves(st, e, k);
      SessionIsLive(st, k);
      SessionIsLive(Step(st, e), k);
      LiveStays(st, e, k);
      if Accepts(st, e, k) && k !in st.sessions {
        HonestFrames(st, e, k, stream);
        SlicesAccumulate(Sent(before, k), CarriedBy(e), stream);
      }
    }
  }

  /** An open connection stays open until it goes. */
  lemma LiveStays(st: Router, e: Event, k: Key)
    requires Inv(st)
    ensures SlotOf(st, k).Live? ==> SlotOf(Step(st, e), k).Live? || SlotOf(Step(st, e), k) == Absent
  {
    hide SlotOf, Step, Inv, Destination;
    StepMoves(st, e, k);
  }

  /** With the datagram at `i` every byte of the hello had arrived, and the whole hello named this route. */
  ghost predicate Decided(events: seq<Event>, k: Key, stream: Bytes, n: nat, route: Route)
    requires n <= |stream|
  {
    exists i: nat ::
      && ChosenAt(events, i, k, route)
      && AllCovered(Sent(events[..i + 1], k), n)
      && ClientHello.Parse(stream[..n]) == Ok(HelloIn(Sent(events[..i + 1], k)).value)
  }

  lemma ChosenIsDecided(events: seq<Event>, k: Key, stream: Bytes, n: nat, route: Route)
    requires ClientHello.StartsWithHello(stream, n) && Chosen(events, k, route)
    requires forall e :: e in events ==> Honest(e, k, stream)
    ensures Decided(events, k, stream, n, route)
  {
    hide SlicesOf, ClientHello.StartsWithHello, Honest, Sent, HelloIn, AllCovered, Step, Inv, Accepts, NamedRoute;
    var i: nat :| ChosenAt(events, i, k, route);
    assert events[..i + 1] == events[..i] + [events[i]];
    var st := Run(START, events[..i]);
    RunKeepsInv(events[..i]);
    SentHonestly(events[..i], k, stream);
    SessionIsLive(st, k);
    HonestFrames(st, events[i], k, stream);
    SentGrows(events[..i], events[i], k);
    NothingIsASlice(stream);
    SlicesAccumulate(Sent(events[..i], k), CarriedBy(events[i]), stream);
    DecisionIsExact(Sent(events[..i + 1], k), stream, n);
  }

  /**
   * Routing never decides early or wrongly, in any run and any order of arrival. A connection still
   * collecting has not sent its whole hello, or sent one that does not parse. One that is opening or open
   * was decided by the datagram with which its whole hello had arrived, for the route that this hello
   * named in the table of that moment, and it is on that route still.
   */
  lemma RoutedByItsOwnHello(events: seq<Event>, k: Key, stream: Bytes, n: nat)
    requires ClientHello.StartsWithHello(stream, n)
    requires forall e :: e in events ==> Honest(e, k, stream)
    ensures
      var st := Run(START, events);
      && (k in st.collecting ==>
            SlicesOf(Sent(events, k), stream) && (AllCovered(Sent(events, k), n) ==> ClientHello.Parse(stream[..n]).Err?))
      && (k in st.opening ==> Decided(events, k, stream, n, st.opening[k].task.route))
      && (k in st.sessions ==> Decided(events, k, stream, n, st.sessions[k].route))
  {
    hide Inv, Run, Honest, Decided, SlicesOf, ClientHello.Parse, ClientHello.StartsWithHello, AllCovered, Chosen, Sent, HelloIn;
    var st := Run(START, events);
    RoutedByWhatItSent(events, k);
    SentHonestly(events, k, stream);
    RunKeepsInv(events);
    PendingFacts(st, k);
    OpeningIsNotOpen(st, k);
    SessionIsLive(st, k);
    if k in st.collecting {
      DecisionIsExact(Sent(events, k), stream, n);
    } else if k in st.opening {
      ChosenIsDecided(events, k, stream, n, st.opening[k].task.route);
    } else if k in st.sessions {
      ChosenIsDecided(events, k, stream, n, st.sessions[k].route);
    }
  }
}
