/**
 * The router itself: the dictionaries and sets of the running process, changed
 * in place by each handler. Three ghost fields say what sessions and pending
 * connections they stand for, and every handler is proved to move the value of
 * RouterModel so described by the step that its event names.
 */
module RouterRuntime {
  import opened Wrappers
  import opened ByteStrings
  import opened CryptoFrames
  import opened ConnectionIds
  import opened QuicRoutes
  import opened RouterModel
  import opened SessionIndex
  import opened PendingMaps
  import opened Visits
  import ClientHello

  /** How long reading stays paused for one connection that is not answered. */
  const PAUSE_MILLISECONDS: int := 250

  class Session {
    /** The key it is filed under; no two sessions share one. */
    ghost const key: Key
    const client: Addr
    const scid: Bytes
    /** Where the upstream transport is connected to. */
    const route: Route
    const timeout: int
    var serverCids: set<Bytes>
    var lastSeen: int
    var received: nat
    /** What was handed to the upstream transport, and whether that is closed. */
    var sent: seq<Bytes>
    var closed: bool

    constructor (ghost key: Key, client: Addr, scid: Bytes, route: Route, now: int)
      ensures State() == SessionState(client, scid, route, route.idleTimeout, {}, now, 0, []) && !closed && this.key == key
    {
      this.key := key;
      this.client, this.scid, this.route, this.timeout := client, scid, route, route.idleTimeout;
      serverCids, lastSeen, received, sent, closed := {}, now, 0, [], false;
    }

    /** A client datagram for this session goes to its upstream. */
    method Forward(data: Bytes, now: int)
      modifies this`lastSeen, this`sent
      ensures State() == old(State()).(lastSeen := now, sent := old(sent) + [data])
    {
      lastSeen := now;
      sent := sent + [data];
    }

    /** A datagram came from its upstream. */
    method Hear(now: int)
      modifies this`received, this`lastSeen
      ensures State() == old(State()).(received := old(received) + 1, lastSeen := now)
    {
      received := received + 1;
      lastSeen := now;
    }

    /** The datagrams queued for this session go to its upstream, in order. */
    method SendAll(queue: seq<Bytes>)
      modifies this`sent
      ensures State() == old(State()).(sent := old(sent) + queue)
    {
      var i := 0;
      while i < |queue|
        invariant 0 <= i <= |queue|
        invariant State() == old(State()).(sent := old(sent) + queue[..i])
      {
        sent := sent + [queue[i]];
        i := i + 1;
      }
      assert queue[..i] == queue;
    }

    function State(): SessionState
      reads this`serverCids, this`lastSeen, this`received, this`sent
    {
      SessionState(client, scid, route, timeout, serverCids, lastSeen, received, sent)
    }
  }

  class QuicRouter {
    var sessions: map<Key, Session>
    var sessionsByAddr: map<Addr, set<Key>>
    var sessionsByServerCid: map<Bytes, Key>
    var serverCidLengthCounts: map<nat, nat>
    var serverCidLengths: seq<nat>
    var pending: map<Key, seq<Bytes>>
    var pendingCrypto: map<Key, Fragments>
    var pendingSeen: map<Key, int>
    var pendingStarted: map<Key, int>
    var opening: set<Key>
    /** The `_open` coroutines that were spawned and have not ended. */
    var tasks: map<Key, OpenTask>
    var routes: map<string, Route>
    var awaitingFirstUpstream: set<Key>
    var ingressPauseTimers: map<Key, int>
    /** The listening transport: whether reading is paused, and what was sent to clients. */
    var readingPaused: bool
    var replies: seq<(Bytes, Addr)>

    ghost var states: Sessions
    ghost var collected: map<Key, Collecting>
    ghost var dialed: map<Key, Opening>

    constructor ()
      ensures Valid() && Model() == START && sessions == map[]
    {
      sessions, sessionsByAddr, sessionsByServerCid := map[], map[], map[];
      serverCidLengthCounts, serverCidLengths := map[], [];
      pending, pendingCrypto, pendingSeen, pendingStarted := map[], map[], map[], map[];
      opening, tasks, routes := {}, map[], map[];
      awaitingFirstUpstream, ingressPauseTimers, readingPaused, replies := {}, map[], false, [];
      states, collected, dialed := map[], map[], map[];
      new;
      hide Inv, IndexesExact, Pending.Shows;
      StartKeepsInv();
      NothingIndexed();
    }

    /*** What the fields stand for ***/

    /** The value of RouterModel that the fields describe. */
    ghost function Model(): Router
      reads this`states, this`collected, this`dialed, this`awaitingFirstUpstream, this`readingPaused, this`routes, this`replies
    {
      Router(states, collected, dialed, awaitingFirstUpstream, readingPaused, routes, replies)
    }

    /** The session objects, one for each key, hold what `states` says, and none of them is closed. */
    ghost predicate SessionsShown()
      reads this`sessions, this`states,
        sessions.Values`serverCids, sessions.Values`lastSeen, sessions.Values`received, sessions.Values`sent,
        sessions.Values`closed
    {
      && sessions.Keys == states.Keys
      && (forall k :: k in sessions ==> sessions[k].key == k && sessions[k].State() == states[k] && !sessions[k].closed)
    }

    /** Every dictionary, index and timer agrees with the value of RouterModel. */
    ghost predicate Shown()
      reads this, sessions.Values
    {
      && SessionsShown()
      && IndexesExact(states, sessionsByAddr, sessionsByServerCid, serverCidLengthCounts, serverCidLengths)
      && Pending(pending, pendingCrypto, pendingSeen, pendingStarted, opening, tasks).Shows(collected, dialed)
      && ingressPauseTimers.Keys == awaitingFirstUpstream
    }

    ghost predicate Valid()
      reads this, sessions.Values
    {
      Shown() && Inv(Model())
    }

    /*** Server connection IDs ***/

    method IndexServerConnectionId(key: Key, serverScid: Bytes)
      requires LengthsExact(sessionsByServerCid.Keys, serverCidLengthCounts, serverCidLengths)
      modifies this`sessionsByServerCid, this`serverCidLengthCounts, this`serverCidLengths,
        (if key in sessions then {sessions[key]} else {})`serverCids
      ensures LengthsExact(sessionsByServerCid.Keys, serverCidLengthCounts, serverCidLengths)
      ensures
        var claims := key in sessions && serverScid !in old(sessionsByServerCid);
        sessionsByServerCid == if claims then old(sessionsByServerCid)[serverScid := key] else old(sessionsByServerCid)
      ensures key in sessions ==>
        var before := old(sessions[key].State());
        sessions[key].State() ==
          if serverScid in old(sessionsByServerCid) then before else before.(serverCids := before.serverCids + {serverScid})
    {
      hide Histogram, Descending, OfLength, CountUp;
      if key !in sessions {
        return;
      }
      var session := sessions[key];
      if serverScid in sessionsByServerCid {
        // A second owner is refused; the owner itself has nothing to add.
        return;
      }
      session.serverCids := session.serverCids + {serverScid};
      HistogramUp(sessionsByServerCid.Keys, serverCidLengthCounts, serverScid);
      sessionsByServerCid := sessionsByServerCid[serverScid := key];
      assert sessionsByServerCid.Keys == old(sessionsByServerCid).Keys + {serverScid};
      serverCidLengthCounts := CountUp(serverCidLengthCounts, |serverScid|);
      serverCidLengths := Descending(serverCidLengthCounts.Keys);
    }

    method RemoveServerCidLength(length: nat)
      modifies this`serverCidLengthCounts, this`serverCidLengths
      ensures serverCidLengthCounts == CountDown(old(serverCidLengthCounts), length)
      ensures serverCidLengths == Descending(serverCidLengthCounts.Keys)
    {
      var count := if length in serverCidLengthCounts then serverCidLengthCounts[length] else 0;
      if count <= 1 {
        serverCidLengthCounts := serverCidLengthCounts - {length};
      } else {
        serverCidLengthCounts := serverCidLengthCounts[length := count - 1];
      }
      serverCidLengths := Descending(serverCidLengthCounts.Keys);
    }

    /** Every ID of a session being added is indexed; none of them may have an owner yet. */
    method IndexServerConnectionIds(key: Key, serverCids: set<Bytes>)
      requires key in sessions && LengthsExact(sessionsByServerCid.Keys, serverCidLengthCounts, serverCidLengths)
      requires serverCids == sessions[key].serverCids
      requires forall cid :: cid in serverCids ==> cid !in sessionsByServerCid
      modifies this`sessionsByServerCid, this`serverCidLengthCounts, this`serverCidLengths, {sessions[key]}`serverCids
      ensures LengthsExact(sessionsByServerCid.Keys, serverCidLengthCounts, serverCidLengths)
      ensures Given(sessionsByServerCid, old(sessionsByServerCid), serverCids, key)
      ensures sessions[key].State() == old(sessions[key].State())
    {
      hide Histogram, Descending, Given, Visiting;
      ghost var byCid, added := sessionsByServerCid, sessions[key].State();
      var todo := serverCids;
      ghost var done := {};
      NothingGiven(byCid, key);
      VisitsBegin(serverCids);
      while todo != {}
        invariant Visiting(serverCids, todo, done)
        invariant LengthsExact(sessionsByServerCid.Keys, serverCidLengthCounts, serverCidLengths)
        invariant sessions[key].State() == added
        invariant Given(sessionsByServerCid, byCid, done, key)
        decreases |todo|
      {
        var serverCid :| serverCid in todo;
        VisitNext(serverCids, todo, done, serverCid);
        GivenOneMore(sessionsByServerCid, byCid, done, serverCid, key);
        IndexServerConnectionId(key, serverCid);
        todo, done := todo - {serverCid}, done + {serverCid};
        assert added.serverCids + {serverCid} == added.serverCids;
      }
      VisitsEnd(serverCids, todo, done);
    }

    method DropServerConnectionIds(key: Key, serverCids: set<Bytes>)
      requires LengthsExact(sessionsByServerCid.Keys, serverCidLengthCounts, serverCidLengths)
      modifies this`sessionsByServerCid, this`serverCidLengthCounts, this`serverCidLengths
      ensures LengthsExact(sessionsByServerCid.Keys, serverCidLengthCounts, serverCidLengths)
      ensures sessionsByServerCid == old(sessionsByServerCid) - OwnedAmong(old(sessionsByServerCid), serverCids, key)
    {
      hide Histogram, Descending, CountDown, OwnedAmong, Visiting;
      ghost var byCid, done := sessionsByServerCid, {};
      OwnedAmongGrows(byCid, {}, [], key);
      var todo := serverCids;
      VisitsBegin(serverCids);
      while todo != {}
        invariant Visiting(serverCids, todo, done)
        invariant LengthsExact(sessionsByServerCid.Keys, serverCidLengthCounts, serverCidLengths)
        invariant sessionsByServerCid == byCid - OwnedAmong(byCid, done, key)
        decreases |todo|
      {
        var serverCid :| serverCid in todo;
        VisitNext(serverCids, todo, done, serverCid);
        OwnedAmongGrows(byCid, done, serverCid, key);
        if serverCid in sessionsByServerCid && sessionsByServerCid[serverCid] == key {
          HistogramDown(sessionsByServerCid.Keys, serverCidLengthCounts, serverCid);
          ghost var keys := sessionsByServerCid.Keys;
          sessionsByServerCid := sessionsByServerCid - {serverCid};
          assert sessionsByServerCid.Keys == keys - {serverCid};
          RemoveServerCidLength(|serverCid|);
        }
        todo, done := todo - {serverCid}, done + {serverCid};
      }
      VisitsEnd(serverCids, todo, done);
    }

    /** An upstream datagram may announce a connection ID; the first session to announce it owns it. */
    method RegisterServerConnectionId(key: Key, datagram: Bytes)
      requires SessionsShown() &&
        IndexesExact(states, sessionsByAddr, sessionsByServerCid, serverCidLengthCounts, serverCidLengths)
      modifies this`sessionsByServerCid, this`serverCidLengthCounts, this`serverCidLengths, this`states,
        if key in sessions then {sessions[key]} else {}
      ensures SessionsShown() &&
        IndexesExact(states, sessionsByAddr, sessionsByServerCid, serverCidLengthCounts, serverCidLengths)
      ensures
        var announced := AnnouncedCid(datagram);
        states == if announced.Some? && key in old(states) then RegisterIn(old(states), key, announced.value) else old(states)
    {
      hide SessionsShown, IndexesExact, InitialConnectionIds, RegisterIn;
      KeysShown();
      if !IsLongHeader(datagram) {
        return;
      }
      var ids := InitialConnectionIds(datagram);
      if ids.Err? || ids.value.source == [] || key !in sessions {
        return;
      }
      RegisterCid(key, ids.value.source);
    }

    method RegisterCid(key: Key, cid: Bytes)
      requires SessionsShown() &&
        IndexesExact(states, sessionsByAddr, sessionsByServerCid, serverCidLengthCounts, serverCidLengths)
      requires key in sessions
      modifies this`sessionsByServerCid, this`serverCidLengthCounts, this`serverCidLengths, this`states, sessions[key]
      ensures SessionsShown() &&
        IndexesExact(states, sessionsByAddr, sessionsByServerCid, serverCidLengthCounts, serverCidLengths)
      ensures states == RegisterIn(old(states), key, cid)
    {
      hide SessionsShown, AddrIndex, CidIndex, LengthsExact, RegisterIn;
      KeysShown();
      Registered(states, sessionsByAddr, sessionsByServerCid, key, cid);
      ClaimCid(key, cid);
    }

    method ClaimCid(key: Key, cid: Bytes)
      requires SessionsShown() && LengthsExact(sessionsByServerCid.Keys, serverCidLengthCounts, serverCidLengths)
      requires key in sessions && key in states
      modifies this`sessionsByServerCid, this`serverCidLengthCounts, this`serverCidLengths, this`states, sessions[key]
      ensures SessionsShown() && LengthsExact(sessionsByServerCid.Keys, serverCidLengthCounts, serverCidLengths)
      ensures
        var known := cid in old(sessionsByServerCid);
        var s := old(states)[key];
        && sessionsByServerCid == (if known then old(sessionsByServerCid) else old(sessionsByServerCid)[cid := key])
        && states == if known then old(states) else old(states)[key := s.(serverCids := s.serverCids + {cid})]
    {
      if cid !in sessionsByServerCid {
        OwnCid(key, cid);
      }
    }

    method OwnCid(key: Key, cid: Bytes)
      requires SessionsShown() && LengthsExact(sessionsByServerCid.Keys, serverCidLengthCounts, serverCidLengths)
      requires key in sessions && key in states && cid !in sessionsByServerCid
      modifies this`sessionsByServerCid, this`serverCidLengthCounts, this`serverCidLengths, this`states, sessions[key]
      ensures SessionsShown() && LengthsExact(sessionsByServerCid.Keys, serverCidLengthCounts, serverCidLengths)
      ensures sessionsByServerCid == old(sessionsByServerCid)[cid := key]
      ensures
        var s := old(states)[key];
        states == old(states)[key := s.(serverCids := s.serverCids + {cid})]
    {
      hide LengthsExact, SessionsShown;
      OtherSessions(key);
      ghost var was := states;
      ghost var s := was[key].(serverCids := was[key].serverCids + {cid});
      states := was[key := s];
      IndexServerConnectionId(key, cid);
      OneMoved(was, key, s);
    }

    /*** Adding and removing sessions ***/

    method AddSession(key: Key, session: Session)
      requires SessionsShown() &&
        IndexesExact(states, sessionsByAddr, sessionsByServerCid, serverCidLengthCounts, serverCidLengths)
      requires key !in sessions && session.key == key && !session.closed
      requires forall cid :: cid in session.serverCids ==> cid !in sessionsByServerCid
      modifies this`sessions, this`sessionsByAddr, this`sessionsByServerCid, this`serverCidLengthCounts,
        this`serverCidLengths, this`states, session
      ensures SessionsShown() &&
        IndexesExact(states, sessionsByAddr, sessionsByServerCid, serverCidLengthCounts, serverCidLengths) &&
        sessions == old(sessions)[key := session]
      ensures states == old(states)[key := old(session.State())]
    {
      hide SessionsShown, AddrIndex, CidIndex, LengthsExact, Given;
      KeysShown();
      ghost var was, byCid, added := states, sessionsByServerCid, session.State();
      AddrAdded(was, sessionsByAddr, key, added);
      sessionsByAddr := AddKey(sessionsByAddr, session.client, key);
      Install(key, session);
      CidAdded(was, byCid, key, added, sessionsByServerCid);
    }

    method Install(key: Key, session: Session)
      requires SessionsShown() && LengthsExact(sessionsByServerCid.Keys, serverCidLengthCounts, serverCidLengths)
      requires key !in sessions && session.key == key && !session.closed
      requires forall cid :: cid in session.serverCids ==> cid !in sessionsByServerCid
      modifies this`sessions, this`sessionsByServerCid, this`serverCidLengthCounts, this`serverCidLengths, this`states,
        session
      ensures SessionsShown() && LengthsExact(sessionsByServerCid.Keys, serverCidLengthCounts, serverCidLengths)
      ensures sessions == old(sessions)[key := session] && states == old(states)[key := old(session.State())]
      ensures Given(sessionsByServerCid, old(sessionsByServerCid), old(session.serverCids), key)
    {
      hide LengthsExact, Given;
      sessions := sessions[key := session];
      states := states[key := session.State()];
      IndexServerConnectionIds(key, session.serverCids);
    }

    method ReleaseIngressPause(key: Key)
      requires ingressPauseTimers.Keys == awaitingFirstUpstream
      modifies this`awaitingFirstUpstream, this`ingressPauseTimers, this`readingPaused
      ensures ingressPauseTimers.Keys == awaitingFirstUpstream == old(awaitingFirstUpstream) - {key}
      ensures ingressPauseTimers == old(ingressPauseTimers) - {key}
      ensures readingPaused == (old(readingPaused) &&
        (key in old(awaitingFirstUpstream) ==> awaitingFirstUpstream != {}))
    {
      if key !in awaitingFirstUpstream {
        assert ingressPauseTimers - {key} == ingressPauseTimers;
        return;
      }
      awaitingFirstUpstream := awaitingFirstUpstream - {key};
      ingressPauseTimers := ingressPauseTimers - {key};
      if awaitingFirstUpstream == {} {
        readingPaused := false;
      }
    }

    method PauseIngressForFirstUpstream(key: Key, now: int)
      requires ingressPauseTimers.Keys == awaitingFirstUpstream
      modifies this`awaitingFirstUpstream, this`ingressPauseTimers, this`readingPaused
      ensures ingressPauseTimers.Keys == awaitingFirstUpstream == old(awaitingFirstUpstream) + {key}
      ensures ingressPauseTimers ==
        if key in old(awaitingFirstUpstream) then old(ingressPauseTimers) else old(ingressPauseTimers)[key := now + PAUSE_MILLISECONDS]
      ensures readingPaused == (old(readingPaused) || old(awaitingFirstUpstream) == {})
    {
      if key in awaitingFirstUpstream {
        return;
      }
      SingletonPause(awaitingFirstUpstream, key);
      awaitingFirstUpstream := awaitingFirstUpstream + {key};
      if |awaitingFirstUpstream| == 1 {
        readingPaused := true;
      }
      ingressPauseTimers := ingressPauseTimers[key := now + PAUSE_MILLISECONDS];
    }

    /** The part of a removal that concerns the session dictionaries. */
    method Unlink(key: Key)
      requires SessionsShown() &&
        IndexesExact(states, sessionsByAddr, sessionsByServerCid, serverCidLengthCounts, serverCidLengths) &&
        key in sessions
      modifies this`sessions, this`sessionsByAddr, this`sessionsByServerCid, this`serverCidLengthCounts,
        this`serverCidLengths, this`states
      ensures SessionsShown() &&
        IndexesExact(states, sessionsByAddr, sessionsByServerCid, serverCidLengthCounts, serverCidLengths) &&
        sessions == old(sessions) - {key}
      ensures states == old(states) - {key}
    {
      hide SessionsShown, AddrIndex, CidIndex, LengthsExact, OwnedAmong;
      KeysShown();
      OtherSessions(key);
      var session := sessions[key];
      AddrDropped(states, sessionsByAddr, key);
      CidDropped(states, sessionsByServerCid, key);
      sessionsByAddr := DropKey(sessionsByAddr, session.client, key);
      Withdraw(key);
      DropServerConnectionIds(key, session.serverCids);
    }

    method Withdraw(key: Key)
      requires SessionsShown()
      modifies this`sessions, this`states
      ensures SessionsShown() && sessions == old(sessions) - {key} && states == old(states) - {key}
    {
      sessions := sessions - {key};
      states := states - {key};
    }

    /** Removes a session with its index entries, ends its pause and closes its upstream. */
    method RemoveSession(key: Key) returns (removed: Option<Session>)
      requires SessionsShown() &&
        IndexesExact(states, sessionsByAddr, sessionsByServerCid, serverCidLengthCounts, serverCidLengths)
      requires ingressPauseTimers.Keys == awaitingFirstUpstream
      modifies this`sessions, this`sessionsByAddr, this`sessionsByServerCid, this`serverCidLengthCounts,
        this`serverCidLengths, this`awaitingFirstUpstream, this`ingressPauseTimers, this`readingPaused, this`states,
        sessions.Values`closed
      ensures SessionsShown() &&
        IndexesExact(states, sessionsByAddr, sessionsByServerCid, serverCidLengthCounts, serverCidLengths)
      ensures ingressPauseTimers.Keys == awaitingFirstUpstream
      ensures ingressPauseTimers == if key in old(sessions) then old(ingressPauseTimers) - {key} else old(ingressPauseTimers)
      ensures Model() == if key in old(sessions) then RemoveSessions(old(Model()), {key}) else old(Model())
      ensures removed == (if key in old(sessions) then Some(old(sessions)[key]) else None) && sessions == old(sessions) - {key}
      ensures forall k :: k in old(sessions) && k !in sessions ==> old(sessions)[k].closed
    {
      hide Model, SessionsShown, IndexesExact, RemoveSessions;
      if key !in sessions {
        assert sessions - {key} == sessions;
        return None;
      }
      var session := sessions[key];
      OtherSessions(key);
      Dismiss(key);
      assert session !in sessions.Values;
      session.closed := true;
      return Some(session);
    }

    /** Everything of a removal but the end of its upstream. */
    method Dismiss(key: Key)
      requires SessionsShown() &&
        IndexesExact(states, sessionsByAddr, sessionsByServerCid, serverCidLengthCounts, serverCidLengths)
      requires key in sessions && ingressPauseTimers.Keys == awaitingFirstUpstream
      modifies this`sessions, this`sessionsByAddr, this`sessionsByServerCid, this`serverCidLengthCounts,
        this`serverCidLengths, this`awaitingFirstUpstream, this`ingressPauseTimers, this`readingPaused, this`states
      ensures SessionsShown() &&
        IndexesExact(states, sessionsByAddr, sessionsByServerCid, serverCidLengthCounts, serverCidLengths)
      ensures ingressPauseTimers.Keys == awaitingFirstUpstream && ingressPauseTimers == old(ingressPauseTimers) - {key}
      ensures Model() == RemoveSessions(old(Model()), {key})
      ensures sessions == old(sessions) - {key}
    {
      hide SessionsShown, IndexesExact, RemoveSessions;
      OneRemoved(Model(), key);
      Unlink(key);
      ReleaseIngressPause(key);
    }

    /*** Which session a client datagram is for ***/

    method SessionForDatagram(data: Bytes, addr: Addr) returns (found: Option<Key>)
      requires SessionsShown() && SessionsOwned(states)
      requires IndexesExact(states, sessionsByAddr, sessionsByServerCid, serverCidLengthCounts, serverCidLengths)
      ensures found == SessionFor(states, data, addr)
    {
      hide SessionsOwned, InitialConnectionIds;
      if data == [] {
        return None;
      }
      if IsLongHeader(data) {
        var ids := InitialConnectionIds(data);
        if ids.Err? {
          return None;
        }
        found := SessionForLongHeader(ids.value.destination, addr);
      } else {
        found := SessionForShortHeader(data[1..], addr);
      }
    }

    method SessionForLongHeader(dcid: Bytes, addr: Addr) returns (found: Option<Key>)
      requires SessionsShown() && SessionsOwned(states) && CidIndex(states, sessionsByServerCid)
      ensures found == LongHeaderSession(states, dcid, addr)
    {
      hide SessionsOwned, CidIndex, LongHeaderSession;
      LongHeaderByIndex(states, sessionsByServerCid, dcid, addr);
      if dcid in sessionsByServerCid {
        var key := sessionsByServerCid[dcid];
        if key in sessions && sessions[key].client == addr {
          return Some(key);
        }
      }
      var key := Key(addr, dcid);
      found := if key in sessions then Some(key) else None;
    }

    method SessionForShortHeader(tail: Bytes, addr: Addr) returns (found: Option<Key>)
      requires SessionsOwned(states)
      requires IndexesExact(states, sessionsByAddr, sessionsByServerCid, serverCidLengthCounts, serverCidLengths)
      ensures found == ShortHeaderSession(states, tail, addr)
    {
      hide SessionsOwned, CidIndex, AddrIndex, Histogram, Descending, ShortHeaderSession;
      var keys := KeysAt(sessionsByAddr, addr);
      var i := 0;
      while i < |serverCidLengths|
        invariant 0 <= i <= |serverCidLengths|
        invariant forall m :: 0 <= m < i ==> !Hit(sessionsByServerCid, keys, tail, serverCidLengths[m])
      {
        var cid := Slice(tail, 0, serverCidLengths[i]);
        if cid in sessionsByServerCid && sessionsByServerCid[cid] in keys {
          FirstHitIsLongest(states, sessionsByAddr, sessionsByServerCid, serverCidLengthCounts, serverCidLengths, addr, tail, i);
          return Some(sessionsByServerCid[cid]);
        }
        i := i + 1;
      }
      NoHitIsOnlySession(states, sessionsByAddr, sessionsByServerCid, serverCidLengthCounts, serverCidLengths, addr, tail);
      if |keys| == 1 {
        var key :| key in keys;
        SingleElement(keys, key);
        return Some(key);
      }
      found := None;
    }

    /*** Client datagrams ***/

    lemma OtherSessions(key: Key)
      requires SessionsShown() && key in sessions
      ensures OthersShown(states, key) && sessions[key].State() == states[key]
    {
    }

    /** The other session objects are other ones, and hold what `was` says. */
    ghost predicate OthersShown(was: map<Key, SessionState>, key: Key)
      reads this`sessions,
        sessions.Values`serverCids, sessions.Values`lastSeen, sessions.Values`received, sessions.Values`sent,
        sessions.Values`closed
    {
      && sessions.Keys == was.Keys && key in sessions && sessions[key].key == key && !sessions[key].closed
      && forall k :: k in sessions && k != key ==>
           sessions[k] != sessions[key] && sessions[k].key == k && sessions[k].State() == was[k] && !sessions[k].closed
    }

    /** When one session object and its value have changed alike, the objects hold what `states` says as they did. */
    lemma OneMoved(was: map<Key, SessionState>, key: Key, s: SessionState)
      requires OthersShown(was, key) && states == was[key := s] && sessions[key].State() == s
      ensures SessionsShown()
    {
    }

    method ForwardDatagram(key: Key, data: Bytes, now: int)
      requires SessionsShown() &&
        IndexesExact(states, sessionsByAddr, sessionsByServerCid, serverCidLengthCounts, serverCidLengths)
      requires key in sessions
      modifies this`states, sessions[key]
      ensures SessionsShown() &&
        IndexesExact(states, sessionsByAddr, sessionsByServerCid, serverCidLengthCounts, serverCidLengths)
      ensures states == old(states)[key := old(states)[key].(lastSeen := now, sent := old(states)[key].sent + [data])]
    {
      hide SessionsShown, IndexesExact;
      KeysShown();
      ghost var s := states[key].(lastSeen := now, sent := states[key].sent + [data]);
      IndexesUnchanged(states, sessionsByAddr, sessionsByServerCid, serverCidLengthCounts, serverCidLengths, key, s);
      Forward(key, data, now);
    }

    method Forward(key: Key, data: Bytes, now: int)
      requires SessionsShown() && key in sessions && key in states
      modifies this`states, sessions[key]
      ensures SessionsShown() && states == old(states)[key := old(states)[key].(lastSeen := now, sent := old(states)[key].sent + [data])]
    {
      ghost var s := states[key].(lastSeen := now, sent := states[key].sent + [data]);
      var session := sessions[key];
      hide SessionsShown;
      OtherSessions(key);
      ghost var was := states;
      states := states[key := s];
      session.Forward(data, now);
      OneMoved(was, key, s);
    }

    method DatagramReceived(data: Bytes, addr: Addr, plaintext: Option<Bytes>, now: int)
      requires Valid()
      modifies this, sessions.Values
      ensures Valid() && Model() == Receive(old(Model()), data, addr, plaintext, now)
      ensures sessions == old(sessions) && ingressPauseTimers == old(ingressPauseTimers)
    {
      hide Inv, SessionsShown, IndexesExact, Pending.Shows, Receive, SessionsOwned;
      ReceiveKeepsInv(Model(), data, addr, plaintext, now);
      SessionsOwnedIn(Model());
      HandleDatagram(data, addr, plaintext, now);
    }

    method HandleDatagram(data: Bytes, addr: Addr, plaintext: Option<Bytes>, now: int)
      requires SessionsShown() && SessionsOwned(states)
      requires IndexesExact(states, sessionsByAddr, sessionsByServerCid, serverCidLengthCounts, serverCidLengths)
      requires Pending(pending, pendingCrypto, pendingSeen, pendingStarted, opening, tasks).Shows(collected, dialed)
      modifies this`states, this`pending, this`pendingCrypto, this`pendingSeen, this`pendingStarted, this`opening, this`tasks,
        this`collected, this`dialed, sessions.Values
      ensures SessionsShown()
      ensures IndexesExact(states, sessionsByAddr, sessionsByServerCid, serverCidLengthCounts, serverCidLengths)
      ensures Pending(pending, pendingCrypto, pendingSeen, pendingStarted, opening, tasks).Shows(collected, dialed)
      ensures Model() == Receive(old(Model()), data, addr, plaintext, now)
    {
      hide SessionsShown, IndexesExact, Pending.Shows, InitialConnectionIds, SessionFor, SessionsOwned, Admit;
      KeysShown();
      var found := SessionForDatagram(data, addr);
      if found.Some? {
        ForwardDatagram(found.value, data, now);
      } else {
        AdmitUnowned(data, addr, plaintext, now);
      }
    }

    /** A datagram that belongs to no session can only ask to open one. */
    method AdmitUnowned(data: Bytes, addr: Addr, plaintext: Option<Bytes>, now: int)
      requires Pending(pending, pendingCrypto, pendingSeen, pendingStarted, opening, tasks).Shows(collected, dialed)
      modifies this`pending, this`pendingCrypto, this`pendingSeen, this`pendingStarted, this`opening, this`tasks,
        this`collected, this`dialed
      ensures Pending(pending, pendingCrypto, pendingSeen, pendingStarted, opening, tasks).Shows(collected, dialed)
      ensures
        var ids := InitialConnectionIds(data);
        Model() == if ids.Ok? then Admit(old(Model()), data, ids.value, addr, plaintext, now) else old(Model())
    {
      hide Pending.Shows, Admit;
      if !IsLongHeader(data) {
        return;
      }
      var ids := InitialConnectionIds(data);
      if ids.Err? {
        return;
      }
      AdmitDatagram(data, ids.value, addr, plaintext, now);
    }

    lemma KeysShown()
      requires SessionsShown()
      ensures sessions.Keys == states.Keys
    {
    }

    /** A long-header datagram that belongs to no session. */
    method AdmitDatagram(data: Bytes, ids: Ids, addr: Addr, plaintext: Option<Bytes>, now: int)
      requires Pending(pending, pendingCrypto, pendingSeen, pendingStarted, opening, tasks).Shows(collected, dialed)
      modifies this`pending, this`pendingCrypto, this`pendingSeen, this`pendingStarted, this`opening, this`tasks,
        this`collected, this`dialed
      ensures Pending(pending, pendingCrypto, pendingSeen, pendingStarted, opening, tasks).Shows(collected, dialed)
      ensures Model() == Admit(old(Model()), data, ids, addr, plaintext, now)
    {
      hide Pending.Shows, Collect, Admit;
      AdmitCases(Model(), data, ids, addr, plaintext, now);
      PendingKeys(Pending(pending, pendingCrypto, pendingSeen, pendingStarted, opening, tasks), collected, dialed);
      var key := Key(addr, ids.destination);
      if key in opening {
        QueueBehindOpening(key, data);
      } else if key in pending || |pending| < PENDING_LIMIT {
        CollectDatagram(key, data, plaintext, ids.source, now);
      }
    }

    method CollectDatagram(key: Key, data: Bytes, plaintext: Option<Bytes>, scid: Bytes, now: int)
      requires Pending(pending, pendingCrypto, pendingSeen, pendingStarted, opening, tasks).Shows(collected, dialed)
      requires key !in opening
      modifies this`pending, this`pendingCrypto, this`pendingSeen, this`pendingStarted, this`opening, this`tasks,
        this`collected, this`dialed
      ensures Pending(pending, pendingCrypto, pendingSeen, pendingStarted, opening, tasks).Shows(collected, dialed)
      ensures
        var c := if key in old(collected) then old(collected)[key] else Collecting([], map[], now, now);
        var next := c.(queue := c.queue + [data], seen := now);
        var st := old(Model());
        Model() ==
          if |c.queue| >= QUEUE_LIMIT then st.(collecting := st.collecting - {key})
          else Collect(st.(collecting := st.collecting[key := next]), key, next, plaintext, scid)
    {
      hide Pending.Shows, Collect;
      var kept := QueuePending(key, data, now);
      if kept {
        InspectPending(key, plaintext, scid);
      }
    }

    method QueueBehindOpening(key: Key, data: Bytes)
      requires Pending(pending, pendingCrypto, pendingSeen, pendingStarted, opening, tasks).Shows(collected, dialed)
      requires key in opening
      modifies this`pending, this`dialed
      ensures Pending(pending, pendingCrypto, pendingSeen, pendingStarted, opening, tasks).Shows(collected, dialed)
      ensures
        var o := old(dialed)[key];
        dialed == if |o.queue| < QUEUE_LIMIT then old(dialed)[key := o.(queue := o.queue + [data])] else old(dialed)
    {
      ghost var p := Pending(pending, pendingCrypto, pendingSeen, pendingStarted, opening, tasks);
      var queue := if key in pending then pending[key] else [];
      assert queue == dialed[key].queue;
      OpeningQueued(p, collected, dialed, key, queue + [data]);
      hide Pending.Shows;
      if |queue| < QUEUE_LIMIT {
        pending := pending[key := queue + [data]];
        dialed := dialed[key := dialed[key].(queue := queue + [data])];
      }
    }

    /** Adds a datagram to a connection that is collecting, or gives a connection up whose queue is full. */
    method QueuePending(key: Key, data: Bytes, now: int) returns (kept: bool)
      requires Pending(pending, pendingCrypto, pendingSeen, pendingStarted, opening, tasks).Shows(collected, dialed)
      requires key !in opening
      modifies this`pending, this`pendingCrypto, this`pendingSeen, this`pendingStarted, this`collected
      ensures Pending(pending, pendingCrypto, pendingSeen, pendingStarted, opening, tasks).Shows(collected, dialed)
      ensures
        var c := if key in old(collected) then old(collected)[key] else Collecting([], map[], now, now);
        && kept == (|c.queue| < QUEUE_LIMIT)
        && collected == if kept then old(collected)[key := c.(queue := c.queue + [data], seen := now)] else old(collected) - {key}
    {
      hide Pending.Shows;
      ghost var c := if key in collected then collected[key] else Collecting([], map[], now, now);
      FirstOrAgain(Pending(pending, pendingCrypto, pendingSeen, pendingStarted, opening, tasks), collected, dialed, key, now);
      var queue := if key in pending then pending[key] else [];
      if |queue| >= QUEUE_LIMIT {
        GiveUp(key);
        return false;
      }
      Append(key, queue, data, now);
      return true;
    }

    method Append(key: Key, queue: seq<Bytes>, data: Bytes, now: int)
      requires Pending(pending, pendingCrypto, pendingSeen, pendingStarted, opening, tasks).Shows(collected, dialed)
      requires key !in opening && queue == if key in pending then pending[key] else []
      modifies this`pending, this`pendingSeen, this`pendingStarted, this`collected
      ensures Pending(pending, pendingCrypto, pendingSeen, pendingStarted, opening, tasks).Shows(collected, dialed)
      ensures
        var c := if key in old(collected) then old(collected)[key] else Collecting([], map[], now, now);
        collected == old(collected)[key := c.(queue := queue + [data], seen := now)]
    {
      hide Pending.Shows;
      ghost var p := Pending(pending, pendingCrypto, pendingSeen, pendingStarted, opening, tasks);
      ghost var c := if key in collected then collected[key] else Collecting([], map[], now, now);
      FirstOrAgain(p, collected, dialed, key, now);
      CollectingSet(p, collected, dialed, key, c.(queue := queue + [data], seen := now));
      pendingStarted := pendingStarted[key := if key in pendingStarted then pendingStarted[key] else now];
      pendingSeen := pendingSeen[key := now];
      pending := pending[key := queue + [data]];
      collected := collected[key := c.(queue := queue + [data], seen := now)];
    }

    /** Forgets a connection that is collecting. */
    method GiveUp(key: Key)
      requires Pending(pending, pendingCrypto, pendingSeen, pendingStarted, opening, tasks).Shows(collected, dialed)
      requires key !in opening
      modifies this`pending, this`pendingCrypto, this`pendingSeen, this`pendingStarted, this`collected
      ensures Pending(pending, pendingCrypto, pendingSeen, pendingStarted, opening, tasks).Shows(collected, dialed)
      ensures collected == old(collected) - {key}
    {
      hide Pending.Shows;
      CollectingDropped(Pending(pending, pendingCrypto, pendingSeen, pendingStarted, opening, tasks), collected, dialed, {key});
      pending := pending - {key};
      pendingCrypto := pendingCrypto - {key};
      pendingSeen := pendingSeen - {key};
      pendingStarted := pendingStarted - {key};
      collected := collected - {key};
    }

    /** Looks for a whole ClientHello in what the connection has sent, and routes it if there is one. */
    method InspectPending(key: Key, plaintext: Option<Bytes>, scid: Bytes)
      requires Pending(pending, pendingCrypto, pendingSeen, pendingStarted, opening, tasks).Shows(collected, dialed)
      requires key in collected && key !in opening
      modifies this`pending, this`pendingCrypto, this`pendingSeen, this`pendingStarted, this`opening, this`tasks,
        this`collected, this`dialed
      ensures Pending(pending, pendingCrypto, pendingSeen, pendingStarted, opening, tasks).Shows(collected, dialed)
      ensures Model() == Collect(old(Model()), key, old(collected)[key], plaintext, scid)
    {
      hide Pending.Shows, Inspect, Routable;
      ghost var c := collected[key];
      var hello := HoldFragments(key, plaintext);
      if hello.Some? {
        Decide(key, hello.value, scid);
        SetAgain(old(collected), key, c.(crypto := Inspect(c.crypto, plaintext).crypto), c);
      }
    }

    /** Adds a packet's fragments to those held, and parses what they make together. */
    method HoldFragments(key: Key, plaintext: Option<Bytes>) returns (hello: Option<ClientHello.Hello>)
      requires Pending(pending, pendingCrypto, pendingSeen, pendingStarted, opening, tasks).Shows(collected, dialed)
      requires key in collected
      modifies this`pendingCrypto, this`collected
      ensures Pending(pending, pendingCrypto, pendingSeen, pendingStarted, opening, tasks).Shows(collected, dialed)
      ensures
        var c := old(collected)[key];
        var seen := Inspect(c.crypto, plaintext);
        hello == seen.hello && collected == old(collected)[key := c.(crypto := seen.crypto)]
    {
      hide Pending.Shows, ReadFrames, Assembled, ClientHello.Parse;
      ghost var p := Pending(pending, pendingCrypto, pendingSeen, pendingStarted, opening, tasks);
      Entries(p, collected, dialed, key);
      assert collected[key := collected[key]] == collected;
      if plaintext.None? {
        return None;
      }
      var fragments := CryptoFragments(plaintext.value);
      if fragments.Err? {
        return None;
      }
      var held := (if key in pendingCrypto then pendingCrypto[key] else map[]) + fragments.value;
      CryptoSet(p, collected, dialed, key, held);
      pendingCrypto := pendingCrypto[key := held];
      collected := collected[key := collected[key].(crypto := held)];
      var assembled := AssembleCrypto(held);
      var parsed := ClientHello.ParseClientHello(assembled);
      hello := if parsed.Ok? then Some(parsed.value) else None;
    }

    method Decide(key: Key, hello: ClientHello.Hello, scid: Bytes)
      requires Pending(pending, pendingCrypto, pendingSeen, pendingStarted, opening, tasks).Shows(collected, dialed)
      requires key in collected && key !in opening
      modifies this`pending, this`pendingCrypto, this`pendingSeen, this`pendingStarted, this`opening, this`tasks,
        this`collected, this`dialed
      ensures Pending(pending, pendingCrypto, pendingSeen, pendingStarted, opening, tasks).Shows(collected, dialed)
      ensures
        var c := old(collected)[key];
        && collected == old(collected) - {key}
        && dialed ==
           if Routable(routes, hello)
           then old(dialed)[key := Opening(c.queue, c.started, OpenTask(routes[hello.serverName], scid, false))]
           else old(dialed)
    {
      hide Pending.Shows;
      Entries(Pending(pending, pendingCrypto, pendingSeen, pendingStarted, opening, tasks), collected, dialed, key);
      if hello.serverName !in routes || routes[hello.serverName].alpn !in hello.alpns {
        GiveUp(key);
        return;
      }
      StartOpening(key, OpenTask(routes[hello.serverName], scid, false));
    }

    method StartOpening(key: Key, task: OpenTask)
      requires Pending(pending, pendingCrypto, pendingSeen, pendingStarted, opening, tasks).Shows(collected, dialed)
      requires key in collected && key in pending && key in pendingStarted && key !in opening
      modifies this`pendingCrypto, this`pendingSeen, this`opening, this`tasks, this`collected, this`dialed
      ensures Pending(pending, pendingCrypto, pendingSeen, pendingStarted, opening, tasks).Shows(collected, dialed)
      ensures collected == old(collected) - {key}
      ensures dialed == old(dialed)[key := Opening(pending[key], pendingStarted[key], task)]
    {
      hide Pending.Shows;
      OpeningStarted(Pending(pending, pendingCrypto, pendingSeen, pendingStarted, opening, tasks), collected, dialed, key, task);
      pendingCrypto := pendingCrypto - {key};
      pendingSeen := pendingSeen - {key};
      opening := opening + {key};
      tasks := tasks[key := task];
      dialed := dialed[key := Opening(pending[key], pendingStarted[key], task)];
      collected := collected - {key};
    }

    /*** Opening a session: `_open` up to its await, and from there on ***/

    /** Until its await an open only finds that its session does not exist yet. */
    method OpenBegins(key: Key)
      requires Valid() && key in tasks
      modifies this`tasks, this`dialed
      ensures Valid() && Model() == Begin(old(Model()), key)
    {
      hide SessionsShown, IndexesExact, Pending.Shows, Inv;
      OpenTaskKeepsInv(Model(), key, 0);
      NotOpenYet(key);
      // An open finds no session of its key.
      assert key !in sessions;
      var task := tasks[key].(connecting := true);
      OpeningEntries(Pending(pending, pendingCrypto, pendingSeen, pendingStarted, opening, tasks), collected, dialed, key);
      TaskSet(Pending(pending, pendingCrypto, pendingSeen, pendingStarted, opening, tasks), collected, dialed, key, task);
      tasks := tasks[key := task];
      dialed := dialed[key := dialed[key].(task := task)];
    }

    /** A connection with a task is opening, and has no session. */
    lemma NotOpenYet(key: Key)
      requires Valid() && key in tasks
      ensures key in opening && key in dialed && key !in sessions && key !in states && tasks.Keys == opening
    {
      hide IndexesExact;
      PendingKeys(Pending(pending, pendingCrypto, pendingSeen, pendingStarted, opening, tasks), collected, dialed);
      PendingFacts(Model(), key);
    }

    /** Drops every pending entry of a connection whose open has ended. */
    method EndOpening(key: Key)
      requires Pending(pending, pendingCrypto, pendingSeen, pendingStarted, opening, tasks).Shows(collected, dialed)
      requires key in opening
      modifies this`pending, this`pendingCrypto, this`pendingSeen, this`pendingStarted, this`opening, this`tasks, this`dialed
      ensures Pending(pending, pendingCrypto, pendingSeen, pendingStarted, opening, tasks).Shows(collected, dialed)
      ensures dialed == old(dialed) - {key}
    {
      hide Pending.Shows;
      OpeningEnded(Pending(pending, pendingCrypto, pendingSeen, pendingStarted, opening, tasks), collected, dialed, key);
      pending := pending - {key};
      pendingCrypto := pendingCrypto - {key};
      pendingSeen := pendingSeen - {key};
      pendingStarted := pendingStarted - {key};
      opening := opening - {key};
      tasks := tasks - {key};
      dialed := dialed - {key};
    }

    method OpenFails(key: Key)
      requires Valid() && key in tasks && tasks[key].connecting
      modifies this
      ensures Valid() && Model() == OpenFailed(old(Model()), key)
      ensures sessions == old(sessions) && TimersKept(ingressPauseTimers, old(ingressPauseTimers))
    {
      hide Shown, Inv, OpenFailed;
      NotOpenYet(key);
      TaskShown(key);
      OpenTaskKeepsInv(Model(), key, 0);
      OpenFailedIs(Model(), key);
      AbandonOpening(key);
    }

    method AbandonOpening(key: Key)
      requires Shown() && key in opening
      modifies this`pending, this`pendingCrypto, this`pendingSeen, this`pendingStarted, this`opening, this`tasks, this`dialed,
        this`awaitingFirstUpstream, this`ingressPauseTimers, this`readingPaused
      ensures Shown() && dialed == old(dialed) - {key} && TimersKept(ingressPauseTimers, old(ingressPauseTimers))
      ensures awaitingFirstUpstream == old(awaitingFirstUpstream) - {key}
      ensures readingPaused == (old(readingPaused) &&
        (key in old(awaitingFirstUpstream) ==> awaitingFirstUpstream != {}))
    {
      hide SessionsShown, IndexesExact, Pending.Shows;
      EndOpening(key);
      ReleaseIngressPause(key);
    }

    /** Sends the queued datagrams, in order. */
    method SendQueued(key: Key, queue: seq<Bytes>)
      requires SessionsShown() &&
        IndexesExact(states, sessionsByAddr, sessionsByServerCid, serverCidLengthCounts, serverCidLengths)
      requires key in sessions
      modifies this`states, sessions[key]
      ensures SessionsShown() &&
        IndexesExact(states, sessionsByAddr, sessionsByServerCid, serverCidLengthCounts, serverCidLengths)
      ensures states == old(states)[key := old(states)[key].(sent := old(states)[key].sent + queue)]
    {
      hide SessionsShown, IndexesExact;
      KeysShown();
      ghost var s := states[key].(sent := states[key].sent + queue);
      IndexesUnchanged(states, sessionsByAddr, sessionsByServerCid, serverCidLengthCounts, serverCidLengths, key, s);
      SendAll(key, queue);
    }

    method SendAll(key: Key, queue: seq<Bytes>)
      requires SessionsShown() && key in sessions && key in states
      modifies this`states, sessions[key]
      ensures SessionsShown() && states == old(states)[key := old(states)[key].(sent := old(states)[key].sent + queue)]
    {
      ghost var s := states[key].(sent := states[key].sent + queue);
      var session := sessions[key];
      hide SessionsShown;
      OtherSessions(key);
      ghost var was := states;
      states := states[key := s];
      session.SendAll(queue);
      OneMoved(was, key, s);
    }

    method OpenSucceeds(key: Key, now: int)
      requires Valid() && key in tasks && tasks[key].connecting
      modifies this
      ensures Valid() && Model() == Opened(old(Model()), key, now)
      ensures key !in old(sessions)
      ensures key in sessions && fresh(sessions[key]) && sessions == old(sessions)[key := sessions[key]]
      ensures key !in old(ingressPauseTimers)
      ensures ingressPauseTimers == old(ingressPauseTimers)[key := now + PAUSE_MILLISECONDS]
    {
      hide Shown, Inv, Opened, WithSession;
      NotOpenYet(key);
      NotAwaitedYet(key);
      TaskShown(key);
      OpenTaskKeepsInv(Model(), key, now);
      OpenedIs(Model(), key, tasks[key], pending[key], now);
      CompleteOpening(key, now);
    }

    lemma NotAwaitedYet(key: Key)
      requires Valid() && key !in sessions
      ensures key !in awaitingFirstUpstream && key !in ingressPauseTimers
    {
      hide Bounded, Undecided, SessionsOwned, OnePhase, IndexesExact;
    }

    lemma TaskShown(key: Key)
      requires Shown() && key in opening
      ensures key in dialed && key in tasks && key in pending
      ensures dialed[key].task == tasks[key] && dialed[key].queue == pending[key]
    {
      OpeningEntries(Pending(pending, pendingCrypto, pendingSeen, pendingStarted, opening, tasks), collected, dialed, key);
    }

    /** The session is added, reading is paused for it, and its queue goes to its upstream. */
    method CompleteOpening(key: Key, now: int)
      requires Shown() && key in opening && key !in sessions && key in tasks && key in pending
      modifies this`sessions, this`sessionsByAddr, this`sessionsByServerCid, this`serverCidLengthCounts,
        this`serverCidLengths, this`states, this`awaitingFirstUpstream, this`ingressPauseTimers, this`readingPaused,
        this`pending, this`pendingCrypto, this`pendingSeen, this`pendingStarted, this`opening, this`tasks, this`dialed
      ensures Shown() && dialed == old(dialed) - {key}
      ensures states == WithSession(old(states), key, old(tasks)[key], old(pending)[key], now)
      ensures key in sessions && fresh(sessions[key]) && sessions == old(sessions)[key := sessions[key]]
      ensures awaitingFirstUpstream == old(awaitingFirstUpstream) + {key}
      ensures ingressPauseTimers ==
        if key in old(awaitingFirstUpstream) then old(ingressPauseTimers) else old(ingressPauseTimers)[key := now + PAUSE_MILLISECONDS]
      ensures readingPaused == (old(readingPaused) || old(awaitingFirstUpstream) == {})
    {
      hide SessionsShown, IndexesExact, Pending.Shows, WithSession;
      PutInService(key, tasks[key], pending[key], now);
      EndOpening(key);
    }

    method PutInService(key: Key, task: OpenTask, queue: seq<Bytes>, now: int)
      requires SessionsShown() &&
        IndexesExact(states, sessionsByAddr, sessionsByServerCid, serverCidLengthCounts, serverCidLengths)
      requires key !in sessions && ingressPauseTimers.Keys == awaitingFirstUpstream
      modifies this`sessions, this`sessionsByAddr, this`sessionsByServerCid, this`serverCidLengthCounts,
        this`serverCidLengths, this`states, this`awaitingFirstUpstream, this`ingressPauseTimers, this`readingPaused
      ensures SessionsShown() &&
        IndexesExact(states, sessionsByAddr, sessionsByServerCid, serverCidLengthCounts, serverCidLengths)
      ensures key in sessions && fresh(sessions[key]) && sessions == old(sessions)[key := sessions[key]]
      ensures states == WithSession(old(states), key, task, queue, now)
      ensures ingressPauseTimers.Keys == awaitingFirstUpstream == old(awaitingFirstUpstream) + {key}
      ensures ingressPauseTimers ==
        if key in old(awaitingFirstUpstream) then old(ingressPauseTimers) else old(ingressPauseTimers)[key := now + PAUSE_MILLISECONDS]
      ensures readingPaused == (old(readingPaused) || old(awaitingFirstUpstream) == {})
    {
      hide SessionsShown, IndexesExact;
      OpenSession(key, task, now);
      PauseIngressForFirstUpstream(key, now);
      SendQueued(key, queue);
    }

    method OpenSession(key: Key, task: OpenTask, now: int)
      requires SessionsShown() &&
        IndexesExact(states, sessionsByAddr, sessionsByServerCid, serverCidLengthCounts, serverCidLengths)
      requires key !in sessions
      modifies this`sessions, this`sessionsByAddr, this`sessionsByServerCid, this`serverCidLengthCounts,
        this`serverCidLengths, this`states
      ensures SessionsShown() &&
        IndexesExact(states, sessionsByAddr, sessionsByServerCid, serverCidLengthCounts, serverCidLengths)
      ensures key in sessions && fresh(sessions[key]) && sessions == old(sessions)[key := sessions[key]]
      ensures states == old(states)[key := SessionState(key.client, task.scid, task.route, task.route.idleTimeout, {}, now, 0, [])]
    {
      hide SessionsShown, IndexesExact;
      var session := new Session(key, key.client, task.scid, task.route, now);
      AddSession(key, session);
    }

    /*** Upstream datagrams ***/

    method UpstreamReceived(key: Key, data: Bytes, now: int)
      requires Valid()
      modifies this, sessions.Values
      ensures Valid() && sessions == old(sessions) && TimersKept(ingressPauseTimers, old(ingressPauseTimers))
      ensures Model() == if key in old(Model()).sessions then Reply(old(Model()), key, data, now) else old(Model())
    {
      hide Inv, SessionsShown, IndexesExact, Pending.Shows, Reply, AfterReply;
      KeysShown();
      if key !in sessions {
        return;
      }
      ReplyKeepsInv(Model(), key, data, now);
      ReplyIs(Model(), key, data, now);
      Answer(key, data, now);
    }

    /** Counts the datagram, learns the ID it announces, sends it to the client, and ends the pause if it is the first. */
    method Answer(key: Key, data: Bytes, now: int)
      requires SessionsShown() &&
        IndexesExact(states, sessionsByAddr, sessionsByServerCid, serverCidLengthCounts, serverCidLengths)
      requires key in sessions && key in states && ingressPauseTimers.Keys == awaitingFirstUpstream
      modifies this`sessionsByServerCid, this`serverCidLengthCounts, this`serverCidLengths, this`states, this`replies,
        this`awaitingFirstUpstream, this`ingressPauseTimers, this`readingPaused, sessions[key]
      ensures SessionsShown() &&
        IndexesExact(states, sessionsByAddr, sessionsByServerCid, serverCidLengthCounts, serverCidLengths)
      ensures ingressPauseTimers.Keys == awaitingFirstUpstream && TimersKept(ingressPauseTimers, old(ingressPauseTimers))
      ensures states == AfterReply(old(states), key, data, now)
      ensures replies == old(replies) + [(data, old(states)[key].client)]
      ensures
        var first := old(states)[key].received == 0;
        && awaitingFirstUpstream == old(awaitingFirstUpstream) - (if first then {key} else {})
        && readingPaused == (old(readingPaused) &&
             (first && key in old(awaitingFirstUpstream) ==> awaitingFirstUpstream != {}))
    {
      hide SessionsShown, IndexesExact, RegisterIn, AnnouncedCid;
      Count(key, now);
      RegisterServerConnectionId(key, data);
      SessionFields(key);
      replies := replies + [(data, sessions[key].client)];
      if sessions[key].received == 1 {
        ReleaseIngressPause(key);
      }
      KeptByRegister(old(states), key, data, now);
    }

    method Count(key: Key, now: int)
      requires SessionsShown() &&
        IndexesExact(states, sessionsByAddr, sessionsByServerCid, serverCidLengthCounts, serverCidLengths)
      requires key in sessions
      modifies this`states, sessions[key]
      ensures SessionsShown() &&
        IndexesExact(states, sessionsByAddr, sessionsByServerCid, serverCidLengthCounts, serverCidLengths)
      ensures states == old(states)[key := Heard(old(states)[key], now)]
    {
      hide SessionsShown, IndexesExact;
      KeysShown();
      ghost var s := Heard(states[key], now);
      IndexesUnchanged(states, sessionsByAddr, sessionsByServerCid, serverCidLengthCounts, serverCidLengths, key, s);
      Hear(key, now);
    }

    method Hear(key: Key, now: int)
      requires SessionsShown() && key in sessions && key in states
      modifies this`states, sessions[key]
      ensures SessionsShown() && states == old(states)[key := Heard(old(states)[key], now)]
    {
      ghost var s := Heard(states[key], now);
      var session := sessions[key];
      hide SessionsShown;
      OtherSessions(key);
      ghost var was := states;
      states := states[key := s];
      session.Hear(now);
      OneMoved(was, key, s);
    }

    lemma SessionFields(key: Key)
      requires SessionsShown() && key in sessions
      ensures key in states && sessions[key].client == states[key].client &&
        sessions[key].received == states[key].received
      ensures sessions[key].lastSeen == states[key].lastSeen && sessions[key].timeout == states[key].timeout
    {
    }

    /*** The reaper ***/

    method Reaper(now: int)
      requires Valid()
      modifies this, sessions.Values
      ensures Valid() && Model() == Reap(old(Model()), now) && TimersKept(ingressPauseTimers, old(ingressPauseTimers))
      ensures sessions.Values <= old(sessions.Values)
      ensures forall k :: k in old(sessions) && k !in sessions ==> old(sessions)[k].closed
    {
      hide SessionsShown, IndexesExact, Pending.Shows, Inv, Reap;
      ReapKeepsInv(Model(), now);
      Sweep(now);
    }

    method Sweep(now: int)
      requires SessionsShown() && ingressPauseTimers.Keys == awaitingFirstUpstream
      requires IndexesExact(states, sessionsByAddr, sessionsByServerCid, serverCidLengthCounts, serverCidLengths)
      requires Pending(pending, pendingCrypto, pendingSeen, pendingStarted, opening, tasks).Shows(collected, dialed)
      modifies this`pending, this`pendingCrypto, this`pendingSeen, this`pendingStarted, this`collected, this`sessions,
        this`sessionsByAddr, this`sessionsByServerCid, this`serverCidLengthCounts, this`serverCidLengths,
        this`awaitingFirstUpstream, this`ingressPauseTimers, this`readingPaused, this`states, sessions.Values`closed
      ensures SessionsShown() && ingressPauseTimers.Keys == awaitingFirstUpstream
      ensures IndexesExact(states, sessionsByAddr, sessionsByServerCid, serverCidLengthCounts, serverCidLengths)
      ensures Pending(pending, pendingCrypto, pendingSeen, pendingStarted, opening, tasks).Shows(collected, dialed)
      ensures Model() == Reap(old(Model()), now) && TimersKept(ingressPauseTimers, old(ingressPauseTimers))
      ensures sessions.Values <= old(sessions.Values)
      ensures forall k :: k in old(sessions) && k !in sessions ==> old(sessions)[k].closed
    {
      hide Model, SessionsShown, IndexesExact, Pending.Shows, RemoveSessions, StalePending, IdleSessions, Reap;
      ReapIs(Model(), now);
      DropStalePending(now);
      RemoveIdleSessions(now);
    }

    method DropStalePending(now: int)
      requires Pending(pending, pendingCrypto, pendingSeen, pendingStarted, opening, tasks).Shows(collected, dialed)
      modifies this`pending, this`pendingCrypto, this`pendingSeen, this`pendingStarted, this`collected
      ensures Pending(pending, pendingCrypto, pendingSeen, pendingStarted, opening, tasks).Shows(collected, dialed)
      ensures
        var st := old(Model());
        Model() == st.(collecting := st.collecting - StalePending(st, now))
    {
      hide Pending.Shows, StaleAmong, Visiting;
      SeenKeys(Pending(pending, pendingCrypto, pendingSeen, pendingStarted, opening, tasks), collected, dialed);
      ghost var was, done := collected, {};
      var seen, todo := pendingSeen, pendingSeen.Keys;
      NoneStale(was, now);
      VisitsBegin(seen.Keys);
      while todo != {}
        invariant Pending(pending, pendingCrypto, pendingSeen, pendingStarted, opening, tasks).Shows(collected, dialed)
        invariant Visiting(seen.Keys, todo, done)
        invariant collected == was - StaleAmong(was, now, done)
        decreases |todo|
      {
        var key :| key in todo;
        VisitNext(seen.Keys, todo, done, key);
        OneMoreStale(was, now, done, key);
        if now - seen[key] > PENDING_SECONDS * SECOND {
          GiveUp(key);
        }
        todo, done := todo - {key}, done + {key};
      }
      VisitsEnd(seen.Keys, todo, done);
      AllStale(old(Model()), now, done);
    }

    method RemoveIdleSessions(now: int)
      requires SessionsShown() && ingressPauseTimers.Keys == awaitingFirstUpstream
      requires IndexesExact(states, sessionsByAddr, sessionsByServerCid, serverCidLengthCounts, serverCidLengths)
      modifies this`sessions, this`sessionsByAddr, this`sessionsByServerCid, this`serverCidLengthCounts,
        this`serverCidLengths, this`awaitingFirstUpstream, this`ingressPauseTimers, this`readingPaused, this`states,
        sessions.Values`closed
      ensures SessionsShown() && ingressPauseTimers.Keys == awaitingFirstUpstream
      ensures IndexesExact(states, sessionsByAddr, sessionsByServerCid, serverCidLengthCounts, serverCidLengths)
      ensures Model() == RemoveSessions(old(Model()), IdleSessions(old(Model()), now))
      ensures TimersKept(ingressPauseTimers, old(ingressPauseTimers))
      ensures sessions.Values <= old(sessions.Values)
      ensures forall k :: k in old(sessions) && k !in sessions ==> old(sessions)[k].closed
    {
      hide SessionsShown, IndexesExact, RemoveSessions, IdleAmong, IdleSessions, Visiting, Retired;
      KeysShown();
      NoneRetired();
      ghost var timers := ingressPauseTimers;
      ghost var was: Router, done: set<Key> := Model(), {};
      var all, todo := sessions, sessions.Keys;
      NoneIdle(was, now);
      assert all - {} == all;
      VisitsBegin(all.Keys);
      while todo != {}
        invariant SessionsShown() && ingressPauseTimers.Keys == awaitingFirstUpstream
        invariant IndexesExact(states, sessionsByAddr, sessionsByServerCid, serverCidLengthCounts, serverCidLengths)
        invariant Visiting(all.Keys, todo, done)
        invariant sessions == all - IdleAmong(was.sessions, now, done)
        invariant sessions.Values <= all.Values
        invariant Retired(all, timers)
        invariant Model() == RemoveSessions(was, IdleAmong(was.sessions, now, done))
        decreases |todo|
      {
        var key :| key in todo;
        VisitNext(all.Keys, todo, done, key);
        OneMoreIdle(was, now, done, key);
        FewerObjects(all, IdleAmong(was.sessions, now, done), IfIdle(was.sessions[key], key, now));
        RemoveIfIdle(key, now, all, timers);
        todo, done := todo - {key}, done + {key};
      }
      VisitsEnd(all.Keys, todo, done);
      AllIdle(was, now, done);
      RetiredAreClosed(all, timers);
    }

    /** Of these session objects those that are no longer filed are closed, and the timers are some of these. */
    ghost predicate Retired(all: map<Key, Session>, timers: map<Key, int>)
      reads this`sessions, this`ingressPauseTimers, all.Values`closed
    {
      && TimersKept(ingressPauseTimers, timers)
      && (forall k :: k in all ==> all[k].key == k)
      && (forall k :: k in sessions ==> k in all && all[k] == sessions[k])
      && (forall k :: k in all && k !in sessions ==> all[k].closed)
    }

    lemma NoneRetired()
      requires SessionsShown()
      ensures Retired(sessions, ingressPauseTimers)
    {
    }

    lemma RetiredAreClosed(all: map<Key, Session>, timers: map<Key, int>)
      requires Retired(all, timers)
      ensures TimersKept(ingressPauseTimers, timers)
      ensures forall k :: k in all && k !in sessions ==> all[k].closed
    {
    }

    method RemoveIfIdle(key: Key, now: int, ghost all: map<Key, Session>, ghost timers: map<Key, int>)
      requires Retired(all, timers) && SessionsShown() && ingressPauseTimers.Keys == awaitingFirstUpstream
      requires IndexesExact(states, sessionsByAddr, sessionsByServerCid, serverCidLengthCounts, serverCidLengths)
      requires key in sessions && key in states
      modifies this`sessions, this`sessionsByAddr, this`sessionsByServerCid, this`serverCidLengthCounts,
        this`serverCidLengths, this`awaitingFirstUpstream, this`ingressPauseTimers, this`readingPaused, this`states,
        sessions.Values`closed
      ensures SessionsShown() && ingressPauseTimers.Keys == awaitingFirstUpstream
      ensures IndexesExact(states, sessionsByAddr, sessionsByServerCid, serverCidLengthCounts, serverCidLengths)
      ensures
        var gone := IfIdle(old(states)[key], key, now);
        Model() == RemoveSessions(old(Model()), gone) && sessions == old(sessions) - gone
      ensures Retired(all, timers)
    {
      hide SessionsShown, IndexesExact, RemoveSessions;
      SessionFields(key);
      NoneIdle(Model(), now);
      assert sessions - {} == sessions;
      if now - sessions[key].lastSeen > sessions[key].timeout * SECOND {
        var _ := RemoveSession(key);
      }
    }

    /*** Timers, routes, and whole runs ***/

    /** The timer of a pause that no answer has ended. */
    method PauseTimerFires(key: Key)
      requires Valid() && key in ingressPauseTimers
      modifies this`awaitingFirstUpstream, this`ingressPauseTimers, this`readingPaused
      ensures Valid() && Model() == Release(old(Model()), key) && TimersKept(ingressPauseTimers, old(ingressPauseTimers))
    {
      hide Inv, SessionsShown, IndexesExact, Pending.Shows;
      ReleaseKeepsInv(Model(), key);
      ReleaseIngressPause(key);
    }

    /** `None` stands for a route file that has not changed or cannot be read. */
    method ReloadRoutes(document: Option<Document>)
      requires Valid()
      modifies this`routes
      ensures Valid() && Model() == Step(old(Model()), Reload(document))
    {
      hide Inv, SessionsShown, IndexesExact, Pending.Shows, Load;
      if document.Some? {
        ReloadKeepsInv(Model(), Load(document.value));
        routes := LoadDocument(document.value);
      }
    }

    /** One event of the loop; an event whose task or timer does not exist cannot happen and changes nothing. */
    method Handle(e: Event)
      requires Valid()
      modifies this, sessions.Values
      ensures Valid() && Model() == Step(old(Model()), e)
      ensures fresh(sessions.Values - old(sessions.Values))
      ensures forall k :: k in ingressPauseTimers ==>
        if k in old(ingressPauseTimers) then ingressPauseTimers[k] == old(ingressPauseTimers)[k]
        else e.OpenSucceeds? && e.k == k && ingressPauseTimers[k] == e.now + PAUSE_MILLISECONDS
    {
      hide Valid, Receive, Begin, Opened, OpenFailed, Reply, Release, Reap;
      TasksShown();
      match e
      case ClientDatagram(data, addr, plaintext, now) => DatagramReceived(data, addr, plaintext, now);
      case OpenBegins(key) =>
        if key in tasks {
          OpenBegins(key);
        }
      case OpenSucceeds(key, now) =>
        if key in tasks && tasks[key].connecting {
          OpenSucceeds(key, now);
        }
      case OpenFails(key) =>
        if key in tasks && tasks[key].connecting {
          OpenFails(key);
        }
      case UpstreamDatagram(key, data, now) => UpstreamReceived(key, data, now);
      case PauseTimer(key) =>
        if key in ingressPauseTimers {
          PauseTimerFires(key);
        }
      case ReaperTick(now) => Reaper(now);
      case Reload(document) => ReloadRoutes(document);
    }

    /** Without a task nothing opens, and without a timer nothing is released. */
    lemma TasksShown()
      requires Valid()
      ensures forall k, now :: !(k in tasks && tasks[k].connecting) ==> Opened(Model(), k, now) == Model()
      ensures forall k :: !(k in tasks && tasks[k].connecting) ==> OpenFailed(Model(), k) == Model()
      ensures forall k :: k !in tasks ==> Begin(Model(), k) == Model()
      ensures forall k :: k !in ingressPauseTimers ==> Release(Model(), k) == Model()
    {
      hide Inv, IndexesExact, SessionsShown;
    }

    /** A router that has served any sequence of events stands for what the state machine reaches by them. */
    static method Serve(events: seq<Event>) returns (router: QuicRouter)
      ensures router.Valid() && router.Model() == Run(START, events)
    {
      hide QuicRouter.Valid, Step;
      router := new QuicRouter();
      var i := 0;
      while i < |events|
        invariant 0 <= i <= |events|
        invariant fresh(router) && fresh(router.sessions.Values)
        invariant router.Valid() && router.Model() == Run(START, events[..i])
      {
        router.Handle(events[i]);
        assert events[..i + 1][..i] == events[..i];
        i := i + 1;
      }
      assert events[..i] == events;
    }
  }

  /** No timer is new, and none has another deadline. */
  predicate TimersKept(timers: map<Key, int>, before: map<Key, int>) {
    forall k :: k in timers ==> k in before && timers[k] == before[k]
  }

  lemma KeptByRegister(sessions: Sessions, k: Key, data: Bytes, now: int)
    requires k in sessions
    ensures
      var post := AfterReply(sessions, k, data, now);
      k in post && post[k].received == sessions[k].received + 1 && post[k].client == sessions[k].client
  {
  }

  lemma OneRemoved(st: Router, k: Key)
    ensures
      var still := st.awaiting - {k};
      RemoveSessions(st, {k}) ==
        Router(st.sessions - {k}, st.collecting, st.opening, still, st.paused && (k in st.awaiting ==> still != {}), st.routes, st.replies)
  {
    assert k !in st.awaiting ==> st.awaiting - {k} == st.awaiting;
  }

  lemma SeenKeys(p: Pending, collecting: map<Key, Collecting>, openings: map<Key, Opening>)
    requires p.Shows(collecting, openings)
    ensures p.seen.Keys == collecting.Keys && collecting.Keys !! p.opening
    ensures forall k :: k in collecting ==> p.seen[k] == collecting[k].seen
  {
  }

  /** Those of `keys` that have been collecting too long. */
  ghost function StaleAmong(collecting: map<Key, Collecting>, now: int, keys: set<Key>): set<Key> {
    set k | k in keys && k in collecting && now - collecting[k].seen > PENDING_SECONDS * SECOND
  }

  lemma NoneStale(collecting: map<Key, Collecting>, now: int)
    ensures collecting - StaleAmong(collecting, now, {}) == collecting
  {
  }

  lemma OneMoreStale(collecting: map<Key, Collecting>, now: int, keys: set<Key>, k: Key)
    requires k in collecting
    ensures
      var left := collecting - StaleAmong(collecting, now, keys);
      collecting - StaleAmong(collecting, now, keys + {k}) ==
        if now - collecting[k].seen > PENDING_SECONDS * SECOND then left - {k} else left
  {
    assert StaleAmong(collecting, now, keys + {k}) == StaleAmong(collecting, now, keys) +
      if now - collecting[k].seen > PENDING_SECONDS * SECOND then {k} else {};
  }

  lemma AllStale(st: Router, now: int, keys: set<Key>)
    requires keys == st.collecting.Keys
    ensures StaleAmong(st.collecting, now, keys) == StalePending(st, now)
  {
  }

  /** Those of `keys` whose sessions have been idle too long. */
  ghost function IdleAmong(sessions: Sessions, now: int, keys: set<Key>): set<Key> {
    set k | k in keys && k in sessions && now - sessions[k].lastSeen > sessions[k].timeout * SECOND
  }

  lemma NoneIdle(st: Router, now: int)
    ensures IdleAmong(st.sessions, now, {}) == {} && RemoveSessions(st, {}) == st
  {
    assert st.awaiting - {} == st.awaiting;
    assert st.sessions - {} == st.sessions;
  }

  /** The session's key, if it is idle. */
  function IfIdle(s: SessionState, k: Key, now: int): set<Key> {
    if now - s.lastSeen > s.timeout * SECOND then {k} else {}
  }

  lemma OneMoreIdle(st: Router, now: int, keys: set<Key>, k: Key)
    requires k in st.sessions && k !in keys
    ensures
      var gone, idle := IdleAmong(st.sessions, now, keys), IfIdle(st.sessions[k], k, now);
      && IdleAmong(st.sessions, now, keys + {k}) == gone + idle
      && RemoveSessions(RemoveSessions(st, gone), idle) == RemoveSessions(st, gone + idle)
      && k !in gone
      && RemoveSessions(st, gone).sessions == st.sessions - gone
  {
    var gone, idle := IdleAmong(st.sessions, now, keys), IfIdle(st.sessions[k], k, now);
    assert IdleAmong(st.sessions, now, keys + {k}) == gone + idle;
    hide IdleAmong, IfIdle;
    assert st.awaiting - gone - idle == st.awaiting - (gone + idle);
    assert st.sessions - gone - idle == st.sessions - (gone + idle);
  }

  lemma AllIdle(st: Router, now: int, keys: set<Key>)
    requires keys == st.sessions.Keys
    ensures IdleAmong(st.sessions, now, keys) == IdleSessions(st, now)
  {
  }

  lemma FewerObjects(all: map<Key, Session>, gone: set<Key>, more: set<Key>)
    ensures all - gone - more == all - (gone + more)
    ensures (all - gone - more).Values <= all.Values
  {
  }

  /** The reaper drops what is stale before it looks for idle sessions, which that does not change. */
  lemma ReapIs(st: Router, now: int)
    ensures
      var left := st.(collecting := st.collecting - StalePending(st, now));
      Reap(st, now) == RemoveSessions(left, IdleSessions(left, now))
  {
  }

  /** The outcome of a failed open, as the handler reaches it. */
  lemma OpenFailedIs(st: Router, k: Key)
    requires k in st.opening && st.opening[k].task.connecting
    ensures OpenFailed(st, k) == st.(opening := st.opening - {k}, awaiting := st.awaiting - {k},
        paused := st.paused && (k in st.awaiting ==> st.awaiting - {k} != {}))
  {
    if k !in st.awaiting {
      assert st.awaiting - {k} == st.awaiting;
    }
  }

  /** The sessions after a successful open, as the handler reaches them. */
  function WithSession(sessions: Sessions, k: Key, task: OpenTask, queue: seq<Bytes>, now: int): Sessions {
    var empty := SessionState(k.client, task.scid, task.route, task.route.idleTimeout, {}, now, 0, []);
    sessions[k := empty][k := empty.(sent := empty.sent + queue)]
  }

  lemma OpenedIs(st: Router, k: Key, task: OpenTask, queue: seq<Bytes>, now: int)
    requires k in st.opening && st.opening[k].task == task && st.opening[k].queue == queue && task.connecting
    ensures
      Opened(st, k, now) == Router(WithSession(st.sessions, k, task, queue, now), st.collecting, st.opening - {k},
        st.awaiting + {k}, st.paused || st.awaiting == {}, st.routes, st.replies)
  {
    var empty := SessionState(k.client, task.scid, task.route, task.route.idleTimeout, {}, now, 0, []);
    assert [] + queue == queue;
    SetAgain(st.sessions, k, empty, empty.(sent := queue));
    if k in st.awaiting {
      assert st.awaiting + {k} == st.awaiting;
    }
  }

  /** The entries of one connection that is opening. */
  lemma OpeningEntries(p: Pending, collecting: map<Key, Collecting>, openings: map<Key, Opening>, k: Key)
    requires p.Shows(collecting, openings) && k in p.opening
    ensures k in p.queues && k in p.started && k in p.tasks && k in openings
    ensures openings[k] == Opening(p.queues[k], p.started[k], p.tasks[k])
  {
  }

  lemma SessionsOwnedIn(st: Router)
    requires Inv(st)
    ensures SessionsOwned(st.sessions)
  {
  }

  lemma SingleElement(keys: set<Key>, k: Key)
    requires |keys| == 1 && k in keys
    ensures keys == {k}
  {
    assert |keys - {k}| == 0;
  }

  /** The entries of one collecting connection. */
  lemma Entries(p: Pending, collecting: map<Key, Collecting>, openings: map<Key, Opening>, k: Key)
    requires p.Shows(collecting, openings) && k in collecting
    ensures k in p.queues && k in p.seen && k in p.started && k !in p.opening
    ensures collecting[k] == Collecting(p.queues[k], p.Known(k), p.seen[k], p.started[k])
  {
  }

  /** What a connection has before its next datagram: nothing, or what its entries say. */
  lemma FirstOrAgain(p: Pending, collecting: map<Key, Collecting>, openings: map<Key, Opening>, k: Key, now: int)
    requires p.Shows(collecting, openings) && k !in p.opening
    ensures
      var c := if k in collecting then collecting[k] else Collecting([], map[], now, now);
      && c.queue == (if k in p.queues then p.queues[k] else [])
      && c.crypto == p.Known(k)
      && c.started == (if k in p.started then p.started[k] else now)
  {
  }

  lemma CollectAgain(st: Router, k: Key, c: Collecting, plaintext: Option<Bytes>, scid: Bytes)
    ensures Collect(st.(collecting := st.collecting[k := c]), k, c, plaintext, scid) == Collect(st, k, c, plaintext, scid)
  {
    hide Inspect, Routable;
    SetAgain(st.collecting, k, c, c.(crypto := Inspect(c.crypto, plaintext).crypto));
  }

  lemma SetAgain<K, V>(m: map<K, V>, k: K, v: V, w: V)
    ensures m[k := v][k := w] == m[k := w]
    ensures m[k := v] - {k} == m - {k}
  {
  }

  /** The outcomes of a datagram that belongs to no session, as the handler reaches them. */
  lemma AdmitCases(st: Router, data: Bytes, ids: Ids, addr: Addr, plaintext: Option<Bytes>, now: int)
    ensures
      var k := Key(addr, ids.destination);
      var c := if k in st.collecting then st.collecting[k] else Collecting([], map[], now, now);
      var next := c.(queue := c.queue + [data], seen := now);
      Admit(st, data, ids, addr, plaintext, now) ==
        if k in st.opening then
          st.(opening := var o := st.opening[k];
                if |o.queue| < QUEUE_LIMIT then st.opening[k := o.(queue := o.queue + [data])] else st.opening)
        else if k !in st.collecting && |st.Pending()| >= PENDING_LIMIT then st
        else if |c.queue| >= QUEUE_LIMIT then st.(collecting := st.collecting - {k})
        else Collect(st.(collecting := st.collecting[k := next]), k, next, plaintext, ids.source)
  {
    hide Collect;
    var k := Key(addr, ids.destination);
    var c := if k in st.collecting then st.collecting[k] else Collecting([], map[], now, now);
    CollectAgain(st, k, c.(queue := c.queue + [data], seen := now), plaintext, ids.source);
  }

  lemma NothingIndexed()
    ensures IndexesExact(map[], map[], map[], map[], [])
    ensures Pending(map[], map[], map[], map[], {}, map[]).Shows(map[], map[])
  {
    assert Descending({}) == [];
  }

  lemma NothingGiven(byCid: map<Bytes, Key>, k: Key)
    ensures Given(byCid, byCid, {}, k)
  {
  }

  lemma SingletonPause(awaiting: set<Key>, k: Key)
    requires k !in awaiting
    ensures |awaiting + {k}| == 1 <==> awaiting == {}
  {
  }
}
