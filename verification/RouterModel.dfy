/**
 * The QUIC router as a state machine over plain values. There are no indexes
 * here: which session owns a datagram is said by a scan of the sessions.
 * The class in QuicRouter.dfy is proved to take exactly these steps.
 */
module RouterModel {
  import opened Wrappers
  import opened ByteStrings
  import opened CryptoFrames
  import opened ConnectionIds
  import opened QuicRoutes
  import ClientHello

  const PENDING_LIMIT: nat := 2048
  const QUEUE_LIMIT: nat := 8
  const PENDING_SECONDS: int := 10

  /** The clock counts milliseconds; limits and timeouts are given in seconds. */
  const SECOND: int := 1000

  datatype Addr = Addr(host: string, port: nat)

  /** A connection is known by its client's address and the destination ID of its first datagram. */
  datatype Key = Key(client: Addr, dcid: Bytes)

  /** An open connection; its upstream socket is connected to the target of `route`, and `sent` is all it was handed. */
  datatype SessionState = SessionState(
    client: Addr, scid: Bytes, route: Route, timeout: int, serverCids: set<Bytes>, lastSeen: int, received: nat,
    sent: seq<Bytes>)

  /** A connection whose ClientHello is still incomplete. */
  datatype Collecting = Collecting(queue: seq<Bytes>, crypto: Fragments, seen: int, started: int)

  /** The suspended `_open` task; `connecting` once it has reached its await. */
  datatype OpenTask = OpenTask(route: Route, scid: Bytes, connecting: bool)

  datatype Opening = Opening(queue: seq<Bytes>, started: int, task: OpenTask)

  type Sessions = map<Key, SessionState>

  datatype Router = Router(
    sessions: Sessions,
    collecting: map<Key, Collecting>,
    opening: map<Key, Opening>,
    awaiting: set<Key>,
    paused: bool,
    routes: map<string, Route>,
    replies: seq<(Bytes, Addr)>)
  {
    function Pending(): set<Key> {
      collecting.Keys + opening.Keys
    }
  }

  const START := Router(map[], map[], map[], {}, false, map[], [])

  /*** Who owns a datagram ***/

  ghost predicate At(sessions: Sessions, addr: Addr, k: Key) {
    k in sessions && sessions[k].client == addr
  }

  ghost predicate OwnsCid(sessions: Sessions, k: Key, cid: Bytes) {
    k in sessions && cid in sessions[k].serverCids
  }

  /** Session `k` of this client owns a server connection ID that starts `tail`. */
  ghost predicate Match(sessions: Sessions, addr: Addr, tail: Bytes, k: Key, cid: Bytes) {
    At(sessions, addr, k) && OwnsCid(sessions, k, cid) && cid <= tail
  }

  ghost predicate LongestMatch(sessions: Sessions, addr: Addr, tail: Bytes, k: Key, cid: Bytes) {
    && Match(sessions, addr, tail, k, cid)
    && forall j, other :: Match(sessions, addr, tail, j, other) ==> |other| <= |cid|
  }

  ghost predicate OnlySession(sessions: Sessions, addr: Addr, k: Key) {
    At(sessions, addr, k) && forall j :: At(sessions, addr, j) ==> j == k
  }

  /** The session owning the longest ID that starts `tail`, else the client's only session. */
  ghost function ShortHeaderSession(sessions: Sessions, tail: Bytes, addr: Addr): Option<Key> {
    if exists k, cid :: LongestMatch(sessions, addr, tail, k, cid) then
      var k, cid :| LongestMatch(sessions, addr, tail, k, cid);
      Some(k)
    else if exists k :: OnlySession(sessions, addr, k) then
      var k :| OnlySession(sessions, addr, k);
      Some(k)
    else None
  }

  ghost function LongHeaderSession(sessions: Sessions, dcid: Bytes, addr: Addr): Option<Key> {
    if exists k :: OwnsCid(sessions, k, dcid) && At(sessions, addr, k) then
      var k :| OwnsCid(sessions, k, dcid) && At(sessions, addr, k);
      Some(k)
    else if Key(addr, dcid) in sessions then Some(Key(addr, dcid))
    else None
  }

  /** The session a client datagram belongs to, by scanning the sessions. */
  ghost function SessionFor(sessions: Sessions, data: Bytes, addr: Addr): (r: Option<Key>)
    ensures r.Some? ==> r.value in sessions
    ensures r.None? && InitialConnectionIds(data).Ok? ==>
              Key(addr, InitialConnectionIds(data).value.destination) !in sessions
  {
    if data == [] then None
    else if IsLongHeader(data) then
      match InitialConnectionIds(data)
      case Ok(ids) => LongHeaderSession(sessions, ids.destination, addr)
      case Err(_) => None
    else ShortHeaderSession(sessions, data[1..], addr)
  }

  /*** Steps ***/

  ghost function Release(st: Router, k: Key): Router {
    if k !in st.awaiting then st
    else st.(awaiting := st.awaiting - {k}, paused := st.paused && st.awaiting - {k} != {})
  }

  ghost function Pause(st: Router, k: Key): Router {
    if k in st.awaiting then st
    else st.(awaiting := st.awaiting + {k}, paused := st.paused || st.awaiting == {})
  }

  /** The fragments held after a packet, and the ClientHello once they make one. */
  datatype Inspection = Inspection(crypto: Fragments, hello: Option<ClientHello.Hello>)

  function Inspect(held: Fragments, plaintext: Option<Bytes>): Inspection {
    if plaintext.None? then Inspection(held, None) else
      match ReadFrames(plaintext.value, 0, map[])
      case Err(_) => Inspection(held, None)
      case Ok(more) =>
        match ClientHello.Parse(Assembled(held + more))
        case Err(_) => Inspection(held + more, None)
        case Ok(hello) => Inspection(held + more, Some(hello))
  }

  ghost predicate Routable(routes: map<string, Route>, hello: ClientHello.Hello) {
    hello.serverName in routes && routes[hello.serverName].alpn in hello.alpns
  }

  /** One more datagram of a connection that has no session and is not opening. */
  ghost function Collect(st: Router, k: Key, c: Collecting, plaintext: Option<Bytes>, scid: Bytes): Router {
    var seen := Inspect(c.crypto, plaintext);
    match seen.hello
    case None => st.(collecting := st.collecting[k := c.(crypto := seen.crypto)])
    case Some(hello) =>
      var rest := st.(collecting := st.collecting - {k});
      if !Routable(st.routes, hello) then rest else
        var task := OpenTask(st.routes[hello.serverName], scid, false);
        rest.(opening := st.opening[k := Opening(c.queue, c.started, task)])
  }

  ghost function Admit(st: Router, data: Bytes, ids: Ids, addr: Addr, plaintext: Option<Bytes>, now: int): Router {
    var k := Key(addr, ids.destination);
    if k in st.opening then
      var o := st.opening[k];
      if |o.queue| < QUEUE_LIMIT then st.(opening := st.opening[k := o.(queue := o.queue + [data])]) else st
    else if k !in st.collecting && |st.Pending()| >= PENDING_LIMIT then st
    else
      var c := if k in st.collecting then st.collecting[k] else Collecting([], map[], now, now);
      if |c.queue| >= QUEUE_LIMIT then st.(collecting := st.collecting - {k})
      else Collect(st, k, c.(queue := c.queue + [data], seen := now), plaintext, ids.source)
  }

  ghost function Forward(st: Router, k: Key, data: Bytes, now: int): Router
    requires k in st.sessions
  {
    var s := st.sessions[k];
    st.(sessions := st.sessions[k := s.(lastSeen := now, sent := s.sent + [data])])
  }

  ghost function Receive(st: Router, data: Bytes, addr: Addr, plaintext: Option<Bytes>, now: int): Router {
    match SessionFor(st.sessions, data, addr)
    case Some(k) => Forward(st, k, data, now)
    case None =>
      match InitialConnectionIds(data)
      case Err(_) => st
      case Ok(ids) => Admit(st, data, ids, addr, plaintext, now)
  }

  ghost function Begin(st: Router, k: Key): Router {
    if k in st.opening then
      var o := st.opening[k];
      st.(opening := st.opening[k := o.(task := o.task.(connecting := true))])
    else st
  }

  ghost function Opened(st: Router, k: Key, now: int): Router {
    if k in st.opening && st.opening[k].task.connecting then
      var o := st.opening[k];
      var s := SessionState(k.client, o.task.scid, o.task.route, o.task.route.idleTimeout, {}, now, 0, o.queue);
      Pause(st.(opening := st.opening - {k}, sessions := st.sessions[k := s]), k)
    else st
  }

  ghost function OpenFailed(st: Router, k: Key): Router {
    if k in st.opening && st.opening[k].task.connecting then
      Release(st.(opening := st.opening - {k}), k)
    else st
  }

  /** The server connection ID an upstream datagram announces, if any. */
  function AnnouncedCid(data: Bytes): Option<Bytes> {
    match InitialConnectionIds(data)
    case Ok(ids) => if ids.source == [] then None else Some(ids.source)
    case Err(_) => None
  }

  /** A connection ID goes to the first session that announces it; later claims are ignored. */
  ghost function RegisterIn(sessions: Sessions, k: Key, cid: Bytes): Sessions
    requires k in sessions
  {
    if exists j :: OwnsCid(sessions, j, cid) then sessions
    else sessions[k := sessions[k].(serverCids := sessions[k].serverCids + {cid})]
  }

  ghost function Register(st: Router, k: Key, cid: Bytes): Router
    requires k in st.sessions
  {
    st.(sessions := RegisterIn(st.sessions, k, cid))
  }

  ghost function Reply(st: Router, k: Key, data: Bytes, now: int): (r: Router)
    requires k in st.sessions
  {
    var s := st.sessions[k];
    var counted := st.(sessions := st.sessions[k := s.(received := s.received + 1, lastSeen := now)]);
    var named := if AnnouncedCid(data).Some? then Register(counted, k, AnnouncedCid(data).value) else counted;
    var sent := named.(replies := st.replies + [(data, s.client)]);
    if s.received == 0 then Release(sent, k) else sent
  }

  /*** A reply, seen from the sessions ***/

  function Heard(s: SessionState, now: int): SessionState {
    s.(received := s.received + 1, lastSeen := now)
  }

  /** The sessions after an upstream datagram, as the handler reaches them. */
  ghost function AfterReply(sessions: Sessions, k: Key, data: Bytes, now: int): Sessions
    requires k in sessions
  {
    var counted := sessions[k := Heard(sessions[k], now)];
    if AnnouncedCid(data).Some? then RegisterIn(counted, k, AnnouncedCid(data).value) else counted
  }

  lemma ReplyIs(st: Router, k: Key, data: Bytes, now: int)
    requires k in st.sessions
    ensures
      var s := st.sessions[k];
      var first := s.received == 0;
      var still := st.awaiting - (if first then {k} else {});
      Reply(st, k, data, now) == Router(AfterReply(st.sessions, k, data, now), st.collecting, st.opening, still,
        st.paused && (first && k in st.awaiting ==> still != {}), st.routes, st.replies + [(data, s.client)])
  {
    hide AnnouncedCid, RegisterIn;
    if k !in st.awaiting {
      assert st.awaiting - {k} == st.awaiting;
    }
    assert st.awaiting - {} == st.awaiting;
  }

  ghost function RemoveSessions(st: Router, gone: set<Key>): Router {
    var still := st.awaiting - gone;
    st.(sessions := st.sessions - gone, awaiting := still,
        paused := st.paused && (still != {} || still == st.awaiting))
  }

  ghost function StalePending(st: Router, now: int): set<Key> {
    set k | k in st.collecting && now - st.collecting[k].seen > PENDING_SECONDS * SECOND
  }

  ghost function IdleSessions(st: Router, now: int): set<Key> {
    set k | k in st.sessions && now - st.sessions[k].lastSeen > st.sessions[k].timeout * SECOND
  }

  ghost function Reap(st: Router, now: int): Router {
    RemoveSessions(st.(collecting := st.collecting - StalePending(st, now)), IdleSessions(st, now))
  }

  /**
   * What can happen between two awaits. `plaintext` is the outcome of
   * decrypting the datagram, and any outcome is allowed; `document` is the
   * route file if it changed and could be read.
   */
  datatype Event =
    | ClientDatagram(data: Bytes, addr: Addr, plaintext: Option<Bytes>, now: int)
    | OpenBegins(k: Key)
    | OpenSucceeds(k: Key, now: int)
    | OpenFails(k: Key)
    | UpstreamDatagram(k: Key, data: Bytes, now: int)
    | PauseTimer(k: Key)
    | ReaperTick(now: int)
    | Reload(document: Option<Document>)

  ghost function Step(st: Router, e: Event): Router {
    match e
    case ClientDatagram(data, addr, plaintext, now) => Receive(st, data, addr, plaintext, now)
    case OpenBegins(k) => Begin(st, k)
    case OpenSucceeds(k, now) => Opened(st, k, now)
    case OpenFails(k) => OpenFailed(st, k)
    case UpstreamDatagram(k, data, now) => if k in st.sessions then Reply(st, k, data, now) else st
    case PauseTimer(k) => Release(st, k)
    case ReaperTick(now) => Reap(st, now)
    case Reload(document) => if document.Some? then st.(routes := Load(document.value)) else st
  }

  ghost function Run(st: Router, events: seq<Event>): Router {
    if events == [] then st else Step(Run(st, events[..|events| - 1]), events[|events| - 1])
  }

  /*** What every step keeps ***/

  /** Each connection is in at most one of the phases collecting, opening and open. */
  ghost predicate OnePhase(open: set<Key>, collecting: set<Key>, opening: set<Key>) {
    open !! collecting && open !! opening && collecting !! opening
  }

  ghost predicate SessionsOwned(sessions: Sessions) {
    && (forall k :: k in sessions ==> sessions[k].client == k.client)
    && (forall k, cid :: OwnsCid(sessions, k, cid) ==> cid != [])
    && (forall j, k, cid :: OwnsCid(sessions, j, cid) && OwnsCid(sessions, k, cid) ==> j == k)
  }

  ghost predicate Bounded(collecting: map<Key, Collecting>, opening: map<Key, Opening>) {
    && |collecting.Keys + opening.Keys| <= PENDING_LIMIT
    && (forall k :: k in collecting ==> 0 < |collecting[k].queue| <= QUEUE_LIMIT)
    && (forall k :: k in opening ==> 0 < |opening[k].queue| <= QUEUE_LIMIT)
  }

  /** The listener is paused exactly while some open session still waits for its first upstream datagram. */
  ghost predicate PausedForAwaiting(sessions: Sessions, awaiting: set<Key>, paused: bool) {
    && (paused <==> awaiting != {})
    && (forall k :: k in awaiting ==> k in sessions && sessions[k].received == 0)
  }

  /** No connection is kept waiting once what it sent makes a ClientHello. */
  ghost predicate Undecided(collecting: map<Key, Collecting>) {
    forall k :: k in collecting ==> ClientHello.Parse(Assembled(collecting[k].crypto)).Err?
  }

  ghost predicate Inv(st: Router) {
    && OnePhase(st.sessions.Keys, st.collecting.Keys, st.opening.Keys)
    && SessionsOwned(st.sessions)
    && Bounded(st.collecting, st.opening)
    && PausedForAwaiting(st.sessions, st.awaiting, st.paused)
    && Undecided(st.collecting)
  }

  lemma StartKeepsInv()
    ensures Inv(START)
  {
    assert Assembled(map[]) == [];
  }

  lemma NotLarger(a: set<Key>, b: set<Key>)
    requires a <= b
    ensures |a| <= |b|
  {
    assert b == a + (b - a);
  }

  /** An update that keeps the client and the IDs of a session keeps who owns what. */
  lemma SameOwners(sessions: Sessions, k: Key, s: SessionState)
    requires SessionsOwned(sessions)
    requires s.client == k.client
    requires s.serverCids == if k in sessions then sessions[k].serverCids else {}
    ensures SessionsOwned(sessions[k := s])
  {
    var post := sessions[k := s];
    assert forall j, cid :: OwnsCid(post, j, cid) ==> OwnsCid(sessions, j, cid);
  }

  /*** The updates that steps are made of ***/

  lemma PendingRoom(pending: set<Key>, k: Key, post: set<Key>)
    requires |pending| <= PENDING_LIMIT
    requires k in pending || |pending| < PENDING_LIMIT
    requires post <= pending + {k}
    ensures |post| <= PENDING_LIMIT
  {
    NotLarger(post, pending + {k});
    if k in pending {
      assert pending + {k} == pending;
    }
  }

  lemma CollectingBounded(collecting: map<Key, Collecting>, opening: map<Key, Opening>, k: Key, c: Collecting)
    requires Bounded(collecting, opening)
    requires k in collecting || |collecting.Keys + opening.Keys| < PENDING_LIMIT
    requires 0 < |c.queue| <= QUEUE_LIMIT
    ensures Bounded(collecting[k := c], opening)
  {
    PendingRoom(collecting.Keys + opening.Keys, k, collecting[k := c].Keys + opening.Keys);
  }

  lemma OpeningBounded(collecting: map<Key, Collecting>, opening: map<Key, Opening>, k: Key, o: Opening)
    requires Bounded(collecting, opening)
    requires k in collecting || k in opening || |collecting.Keys + opening.Keys| < PENDING_LIMIT
    requires 0 < |o.queue| <= QUEUE_LIMIT
    ensures Bounded(collecting - {k}, opening[k := o])
  {
    PendingRoom(collecting.Keys + opening.Keys, k, (collecting - {k}).Keys + opening[k := o].Keys);
  }

  lemma FewerPendingBounded(collecting: map<Key, Collecting>, opening: map<Key, Opening>, gone: set<Key>, ended: set<Key>)
    requires Bounded(collecting, opening)
    ensures Bounded(collecting - gone, opening - ended)
  {
    NotLarger((collecting - gone).Keys + (opening - ended).Keys, collecting.Keys + opening.Keys);
  }

  lemma CollectingUpdate(st: Router, k: Key, c: Collecting)
    requires Inv(st) && k !in st.sessions && k !in st.opening
    requires k in st.collecting || |st.Pending()| < PENDING_LIMIT
    requires 0 < |c.queue| <= QUEUE_LIMIT && ClientHello.Parse(Assembled(c.crypto)).Err?
    ensures Inv(st.(collecting := st.collecting[k := c]))
  {
    hide Bounded, SessionsOwned, PausedForAwaiting, ClientHello.Parse, Assembled;
    CollectingBounded(st.collecting, st.opening, k, c);
  }

  lemma OpeningUpdate(st: Router, k: Key, o: Opening)
    requires Inv(st) && k !in st.sessions
    requires k in st.collecting || k in st.opening || |st.Pending()| < PENDING_LIMIT
    requires 0 < |o.queue| <= QUEUE_LIMIT
    ensures Inv(st.(collecting := st.collecting - {k}, opening := st.opening[k := o]))
  {
    hide Bounded, SessionsOwned, PausedForAwaiting, ClientHello.Parse, Assembled;
    OpeningBounded(st.collecting, st.opening, k, o);
  }

  lemma PendingRemoval(st: Router, gone: set<Key>, ended: set<Key>)
    requires Inv(st)
    ensures Inv(st.(collecting := st.collecting - gone, opening := st.opening - ended))
  {
    hide Bounded, SessionsOwned, PausedForAwaiting, ClientHello.Parse, Assembled;
    FewerPendingBounded(st.collecting, st.opening, gone, ended);
  }

  lemma SessionUpdate(st: Router, k: Key, s: SessionState)
    requires Inv(st) && k in st.sessions
    requires s.client == st.sessions[k].client && s.serverCids == st.sessions[k].serverCids
    requires k in st.awaiting ==> s.received == 0
    ensures Inv(st.(sessions := st.sessions[k := s]))
  {
    hide Bounded, Undecided, SessionsOwned;
    SessionClient(st.sessions, k);
    SameOwners(st.sessions, k, s);
    assert st.sessions[k := s].Keys == st.sessions.Keys;
  }

  lemma SessionArrival(st: Router, k: Key, s: SessionState)
    requires Inv(st) && k !in st.sessions && k !in st.collecting && k !in st.opening
    requires s.client == k.client && s.serverCids == {}
    ensures Inv(st.(sessions := st.sessions[k := s]))
  {
    hide Bounded, Undecided, SessionsOwned;
    SameOwners(st.sessions, k, s);
  }

  lemma SessionClient(sessions: Sessions, k: Key)
    requires SessionsOwned(sessions) && k in sessions
    ensures sessions[k].client == k.client
  {
  }

  lemma ReleaseKeepsInv(st: Router, k: Key)
    requires Inv(st)
    ensures Inv(Release(st, k))
  {
    hide Bounded, Undecided, SessionsOwned, OnePhase;
  }

  lemma PauseKeepsInv(st: Router, k: Key)
    requires Inv(st) && k in st.sessions && st.sessions[k].received == 0
    ensures Inv(Pause(st, k))
  {
    hide Bounded, Undecided, SessionsOwned, OnePhase;
  }

  lemma RegisterKeepsOwners(st: Router, k: Key, cid: Bytes)
    requires SessionsOwned(st.sessions) && k in st.sessions && cid != []
    ensures SessionsOwned(Register(st, k, cid).sessions)
  {
    var post := Register(st, k, cid);
    forall j, other | OwnsCid(post.sessions, j, other)
      ensures OwnsCid(st.sessions, j, other) || (j == k && other == cid && !exists i :: OwnsCid(st.sessions, i, cid))
    {
    }
  }

  lemma RegisterKeepsInv(st: Router, k: Key, cid: Bytes)
    requires Inv(st) && k in st.sessions && cid != []
    ensures Inv(Register(st, k, cid))
    ensures Register(st, k, cid).sessions.Keys == st.sessions.Keys
  {
    hide Bounded, Undecided, SessionsOwned, OwnsCid;
    RegisterKeepsOwners(st, k, cid);
    assert Register(st, k, cid).sessions.Keys == st.sessions.Keys;
  }

  lemma FewerOwners(sessions: Sessions, gone: set<Key>)
    requires SessionsOwned(sessions)
    ensures SessionsOwned(sessions - gone)
  {
    assert forall j, cid :: OwnsCid(sessions - gone, j, cid) ==> OwnsCid(sessions, j, cid);
  }

  lemma RemoveSessionsKeepsInv(st: Router, gone: set<Key>)
    requires Inv(st)
    ensures Inv(RemoveSessions(st, gone))
  {
    hide Bounded, Undecided, SessionsOwned;
    FewerOwners(st.sessions, gone);
  }

  /*** Steps keep the invariant ***/

  lemma CollectKeepsInv(st: Router, k: Key, c: Collecting, plaintext: Option<Bytes>, scid: Bytes)
    requires Inv(st) && k !in st.sessions && k !in st.opening
    requires k in st.collecting || |st.Pending()| < PENDING_LIMIT
    requires 0 < |c.queue| <= QUEUE_LIMIT && ClientHello.Parse(Assembled(c.crypto)).Err?
    ensures Inv(Collect(st, k, c, plaintext, scid))
  {
    hide Inv, Inspect, Assembled, ClientHello.Parse;
    var seen := Inspect(c.crypto, plaintext);
    InspectUndecided(c.crypto, plaintext);
    if seen.hello.None? {
      CollectingUpdate(st, k, c.(crypto := seen.crypto));
    } else if Routable(st.routes, seen.hello.value) {
      OpeningUpdate(st, k, Opening(c.queue, c.started, OpenTask(st.routes[seen.hello.value.serverName], scid, false)));
    } else {
      PendingRemoval(st, {k}, {});
      assert st.opening - {} == st.opening;
    }
  }

  lemma InspectUndecided(held: Fragments, plaintext: Option<Bytes>)
    requires ClientHello.Parse(Assembled(held)).Err?
    ensures
      var seen := Inspect(held, plaintext);
      seen.hello.None? ==> ClientHello.Parse(Assembled(seen.crypto)).Err?
  {
    hide ReadFrames, Assembled, ClientHello.Parse;
  }

  lemma AdmitKeepsInv(st: Router, data: Bytes, ids: Ids, addr: Addr, plaintext: Option<Bytes>, now: int)
    requires Inv(st) && Key(addr, ids.destination) !in st.sessions
    ensures Inv(Admit(st, data, ids, addr, plaintext, now))
  {
    hide Inv, Collect, Assembled, ClientHello.Parse;
    var k := Key(addr, ids.destination);
    PendingFacts(st, k);
    if k in st.opening {
      var o := st.opening[k];
      if |o.queue| < QUEUE_LIMIT {
        OpeningUpdate(st, k, o.(queue := o.queue + [data]));
        assert st.collecting - {k} == st.collecting;
      }
    } else if k in st.collecting || |st.Pending()| < PENDING_LIMIT {
      EmptyUndecided();
      var c := if k in st.collecting then st.collecting[k] else Collecting([], map[], now, now);
      if |c.queue| < QUEUE_LIMIT {
        CollectKeepsInv(st, k, c.(queue := c.queue + [data], seen := now), plaintext, ids.source);
      } else {
        PendingRemoval(st, {k}, {});
        assert st.opening - {} == st.opening;
      }
    }
  }

  lemma EmptyUndecided()
    ensures ClientHello.Parse(Assembled(map[])).Err?
  {
    assert Assembled(map[]) == [];
  }

  lemma PendingFacts(st: Router, k: Key)
    requires Inv(st)
    ensures k in st.collecting ==> ClientHello.Parse(Assembled(st.collecting[k].crypto)).Err? && 0 < |st.collecting[k].queue|
    ensures k in st.opening ==> k !in st.collecting && k !in st.sessions && 0 < |st.opening[k].queue| <= QUEUE_LIMIT
  {
    hide ClientHello.Parse, Assembled;
  }

  lemma ReceiveKeepsInv(st: Router, data: Bytes, addr: Addr, plaintext: Option<Bytes>, now: int)
    requires Inv(st)
    ensures Inv(Receive(st, data, addr, plaintext, now))
  {
    hide Inv, Admit, InitialConnectionIds;
    match SessionFor(st.sessions, data, addr)
    case Some(k) =>
      var s := st.sessions[k];
      AwaitingUnheard(st, k);
      SessionUpdate(st, k, s.(lastSeen := now, sent := s.sent + [data]));
    case None =>
      if InitialConnectionIds(data).Ok? {
        AdmitKeepsInv(st, data, InitialConnectionIds(data).value, addr, plaintext, now);
      }
  }

  lemma AwaitingUnheard(st: Router, k: Key)
    requires Inv(st)
    ensures k in st.awaiting ==> k in st.sessions && st.sessions[k].received == 0
  {
    hide Bounded, Undecided, SessionsOwned, OnePhase;
  }

  lemma OpenTaskKeepsInv(st: Router, k: Key, now: int)
    requires Inv(st)
    ensures Inv(Begin(st, k)) && Inv(Opened(st, k, now)) && Inv(OpenFailed(st, k))
  {
    hide Inv, Pause, Release;
    PendingFacts(st, k);
    if k in st.opening {
      var o := st.opening[k];
      assert st.collecting - {k} == st.collecting && st.collecting - {} == st.collecting;
      OpeningUpdate(st, k, o.(task := o.task.(connecting := true)));
      PendingRemoval(st, {}, {k});
      var rest := st.(opening := st.opening - {k});
      ReleaseKeepsInv(rest, k);
      var s := SessionState(k.client, o.task.scid, o.task.route, o.task.route.idleTimeout, {}, now, 0, o.queue);
      SessionArrival(rest, k, s);
      PauseKeepsInv(rest.(sessions := st.sessions[k := s]), k);
    }
  }

  lemma ReplyKeepsInv(st: Router, k: Key, data: Bytes, now: int)
    requires Inv(st) && k in st.sessions
    ensures Inv(Reply(st, k, data, now))
  {
    hide Inv, AnnouncedCid, Register;
    var s := st.sessions[k];
    var first := st.sessions[k].received == 0;
    var heard := s.(received := s.received + 1, lastSeen := now);
    var counted := st.(sessions := st.sessions[k := heard]);
    var quiet := Release(st, k);
    // Releasing the pause last or first makes no difference.
    ReleaseKeepsInv(st, k);
    AwaitingUnheard(st, k);
    SessionUpdate(quiet, k, heard);
    var calm := quiet.(sessions := st.sessions[k := heard]);
    var announced := AnnouncedCid(data);
    AnnouncedIsNotEmpty(data);
    if announced.Some? {
      RegisterKeepsInv(calm, k, announced.value);
      RegisterOnlySessions(counted, calm, k, announced.value);
    }
    RepliesKeepInv(if announced.Some? then Register(calm, k, announced.value) else calm, st.replies + [(data, s.client)]);
  }

  lemma RegisterOnlySessions(a: Router, b: Router, k: Key, cid: Bytes)
    requires a.sessions == b.sessions && k in a.sessions
    ensures Register(b, k, cid) == b.(sessions := Register(a, k, cid).sessions)
    ensures Register(a, k, cid) == a.(sessions := Register(a, k, cid).sessions)
  {
  }

  lemma RepliesKeepInv(st: Router, replies: seq<(Bytes, Addr)>)
    requires Inv(st)
    ensures Inv(st.(replies := replies))
  {
    hide OnePhase, SessionsOwned, Bounded, PausedForAwaiting, Undecided;
  }

  lemma AnnouncedIsNotEmpty(data: Bytes)
    ensures AnnouncedCid(data).Some? ==> AnnouncedCid(data).value != []
  {
  }

  lemma ReapKeepsInv(st: Router, now: int)
    requires Inv(st)
    ensures Inv(Reap(st, now))
  {
    hide Inv, RemoveSessions;
    PendingRemoval(st, StalePending(st, now), {});
    assert st.opening - {} == st.opening;
    RemoveSessionsKeepsInv(st.(collecting := st.collecting - StalePending(st, now)), IdleSessions(st, now));
  }

  lemma ReloadKeepsInv(st: Router, routes: map<string, Route>)
    requires Inv(st)
    ensures Inv(st.(routes := routes))
  {
    hide OnePhase, SessionsOwned, Bounded, PausedForAwaiting, Undecided;
  }

  lemma StepKeepsInv(st: Router, e: Event)
    requires Inv(st)
    ensures Inv(Step(st, e))
  {
    hide Inv, Receive, Begin, Opened, OpenFailed, Reply, Release, Reap;
    match e
    case ClientDatagram(data, addr, plaintext, now) => ReceiveKeepsInv(st, data, addr, plaintext, now);
    case OpenBegins(k) => OpenTaskKeepsInv(st, k, 0);
    case OpenSucceeds(k, now) => OpenTaskKeepsInv(st, k, now);
    case OpenFails(k) => OpenTaskKeepsInv(st, k, 0);
    case UpstreamDatagram(k, data, now) =>
      if k in st.sessions {
        ReplyKeepsInv(st, k, data, now);
      }
    case PauseTimer(k) => ReleaseKeepsInv(st, k);
    case ReaperTick(now) => ReapKeepsInv(st, now);
    case Reload(document) =>
      if document.Some? {
        ReloadKeepsInv(st, Load(document.value));
      }
  }

  /** In every interleaving of datagrams, opens, timers, reaping and reloads, the invariant holds. */
  lemma {:induction false} RunKeepsInv(events: seq<Event>)
    ensures Inv(Run(START, events))
  {
    if events == [] {
      StartKeepsInv();
    } else {
      hide Inv, Step;
      RunKeepsInv(events[..|events| - 1]);
      StepKeepsInv(Run(START, events[..|events| - 1]), events[|events| - 1]);
    }
  }
}
