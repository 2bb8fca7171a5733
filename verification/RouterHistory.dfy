/** What the router's history says of its state: its routes, who owns which connection ID, and each session's record. */
module RouterHistory {
  import opened Wrappers
  import opened ByteStrings
  import opened CryptoFrames
  import opened ConnectionIds
  import opened QuicRoutes
  import opened RouterModel
  import opened RouterRuns
  import ClientHello

  /*** The route table ***/

  /** The last route document that was read. */
  function LastDocument(events: seq<Event>): Option<Document> {
    if events == [] then None
    else
      var last := events[|events| - 1];
      if last.Reload? && last.document.Some? then last.document else LastDocument(events[..|events| - 1])
  }

  lemma RegisterKeys(sessions: Sessions, k: Key, cid: Bytes)
    requires k in sessions
    ensures
      var post := RegisterIn(sessions, k, cid);
      post.Keys == sessions.Keys && forall j :: j in post ==> post[j] == sessions[j].(serverCids := post[j].serverCids)
  {
    hide OwnsCid;
  }

  /** Hearing from an upstream counts and dates its own session, and may give that an ID. */
  lemma HeardKeys(sessions: Sessions, k: Key, data: Bytes, now: int)
    requires k in sessions
    ensures
      var post := AfterReply(sessions, k, data, now);
      && post.Keys == sessions.Keys
      && forall j :: j in post ==>
           post[j] == (if j == k then Heard(sessions[j], now) else sessions[j]).(serverCids := post[j].serverCids)
  {
    hide AnnouncedCid, RegisterIn;
    if AnnouncedCid(data).Some? {
      RegisterKeys(sessions[k := Heard(sessions[k], now)], k, AnnouncedCid(data).value);
    }
  }

  lemma ReplyKeeps(st: Router, k: Key, data: Bytes, now: int)
    requires k in st.sessions
    ensures
      var post := Reply(st, k, data, now);
      && post.routes == st.routes && post.collecting == st.collecting && post.opening == st.opening
      && post.sessions == AfterReply(st.sessions, k, data, now) && post.sessions.Keys == st.sessions.Keys
  {
    hide Reply, AfterReply;
    ReplyIs(st, k, data, now);
    HeardKeys(st.sessions, k, data, now);
  }

  lemma StepRoutes(st: Router, e: Event)
    ensures Step(st, e).routes == if e.Reload? && e.document.Some? then Load(e.document.value) else st.routes
  {
    hide InitialConnectionIds, SessionFor, Admit, Reply, Load;
    match e
    case ClientDatagram(data, addr, plaintext, now) =>
      if InitialConnectionIds(data).Ok? {
        QuietAdmission(st, data, InitialConnectionIds(data).value, addr, plaintext, now);
      }
    case UpstreamDatagram(k, data, now) =>
      if k in st.sessions {
        ReplyKeeps(st, k, data, now);
      }
    case _ =>
  }

  /** In every run the router routes by the last document it could read, and by nothing from before. */
  lemma {:induction false} RoutesAreTheLastDocument(events: seq<Event>)
    ensures
      var document := LastDocument(events);
      Run(START, events).routes == if document.Some? then Load(document.value) else map[]
  {
    if events != [] {
      hide Step, Load;
      RoutesAreTheLastDocument(events[..|events| - 1]);
      StepRoutes(Run(START, events[..|events| - 1]), events[|events| - 1]);
    }
  }

  /** After the last reload of a rendered table, the router knows exactly the enabled names, each by its greatest row. */
  lemma RoutesTheRenderedTable(events: seq<Event>, rows: seq<Row>, name: string)
    requires LastDocument(events) == Some(Render(rows)) && Unique(rows)
    ensures
      var routes := Run(START, events).routes;
      && (name in routes <==> exists row :: row in rows && row.enabled && ClientHello.Canonical(row.route.serverName) == name)
      && (name in routes ==> exists row :: Greatest(rows, row, name) && routes[name] == row.route)
  {
    hide Run, Load, Render, Unique, Greatest, ClientHello.Canonical;
    RoutesAreTheLastDocument(events);
    ReadBack(rows, name);
  }

  /*** Connection IDs ***/

  /** The upstream of `k` names this ID as its own: the source ID of a long header. */
  ghost predicate Announces(e: Event, k: Key, cid: Bytes) {
    && e.UpstreamDatagram? && e.k == k && cid != []
    && InitialConnectionIds(e.data).Ok? && InitialConnectionIds(e.data).value.source == cid
  }

  ghost predicate Unowned(sessions: Sessions, cid: Bytes) {
    forall j :: !OwnsCid(sessions, j, cid)
  }

  lemma RegisterOwns(sessions: Sessions, j: Key, id: Bytes, k: Key, cid: Bytes)
    requires j in sessions
    ensures OwnsCid(RegisterIn(sessions, j, id), k, cid) <==>
            OwnsCid(sessions, k, cid) || (j == k && cid == id && Unowned(sessions, cid))
  {
  }

  lemma HeardOwns(sessions: Sessions, j: Key, now: int, k: Key, cid: Bytes)
    requires j in sessions
    ensures
      var post := sessions[j := Heard(sessions[j], now)];
      && (OwnsCid(post, k, cid) <==> OwnsCid(sessions, k, cid))
      && (Unowned(post, cid) <==> Unowned(sessions, cid))
  {
    var post := sessions[j := Heard(sessions[j], now)];
    assert forall i :: OwnsCid(post, i, cid) <==> OwnsCid(sessions, i, cid);
  }

  lemma ReplyOwns(sessions: Sessions, e: Event, k: Key, cid: Bytes)
    requires e.UpstreamDatagram? && e.k in sessions
    ensures
      OwnsCid(AfterReply(sessions, e.k, e.data, e.now), k, cid) <==>
        OwnsCid(sessions, k, cid) || (Announces(e, k, cid) && Unowned(sessions, cid))
  {
    hide InitialConnectionIds, OwnsCid, Unowned, RegisterIn;
    HeardOwns(sessions, e.k, e.now, k, cid);
    if AnnouncedCid(e.data).Some? {
      RegisterOwns(sessions[e.k := Heard(sessions[e.k], e.now)], e.k, AnnouncedCid(e.data).value, k, cid);
    }
  }

  lemma StepOwns(st: Router, e: Event, k: Key, cid: Bytes)
    requires Inv(st)
    ensures
      OwnsCid(Step(st, e).sessions, k, cid) <==>
        && k in st.sessions && k in Step(st, e).sessions
        && (OwnsCid(st.sessions, k, cid) || (Announces(e, k, cid) && Unowned(st.sessions, cid)))
  {
    hide InitialConnectionIds, SessionFor, Admit, Reply, Bounded, Undecided, PausedForAwaiting, SessionsOwned, Unowned;
    match e
    case ClientDatagram(data, addr, plaintext, now) =>
      if InitialConnectionIds(data).Ok? {
        QuietAdmission(st, data, InitialConnectionIds(data).value, addr, plaintext, now);
      }
    case UpstreamDatagram(j, data, now) =>
      if j in st.sessions {
        ReplyOwns(st.sessions, e, k, cid);
        ReplyKeeps(st, j, data, now);
      }
    case _ =>
  }

  /** Since it was announced here, at a moment when no live session owned it, `k` has been open. */
  ghost predicate GainedAt(events: seq<Event>, i: nat, k: Key, cid: Bytes) {
    && i < |events| && Announces(events[i], k, cid) && Unowned(Run(START, events[..i]).sessions, cid)
    && forall j :: i <= j <= |events| ==> k in Run(START, events[..j]).sessions
  }

  ghost predicate Gained(events: seq<Event>, k: Key, cid: Bytes) {
    exists i: nat :: GainedAt(events, i, k, cid)
  }

  lemma GainedStep(before: seq<Event>, e: Event, k: Key, cid: Bytes)
    ensures
      var st := Run(START, before);
      Gained(before + [e], k, cid) <==>
        && k in st.sessions && k in Step(st, e).sessions
        && (Gained(before, k, cid) || (Announces(e, k, cid) && Unowned(st.sessions, cid)))
  {
    hide Step, Announces, Unowned;
    var events := before + [e];
    assert events[..|before|] == before && events[..|events|] == events && before[..|before|] == before;
    assert forall j :: 0 <= j <= |before| ==> events[..j] == before[..j];
    if Gained(events, k, cid) {
      var i: nat :| GainedAt(events, i, k, cid);
      assert k in Run(START, events[..|before|]).sessions && k in Run(START, events[..|events|]).sessions;
      if i < |before| {
        assert GainedAt(before, i, k, cid);
      }
    }
    if k in Run(START, before).sessions && k in Run(START, events).sessions {
      if Gained(before, k, cid) {
        var i: nat :| GainedAt(before, i, k, cid);
        assert GainedAt(events, i, k, cid);
      } else if Announces(e, k, cid) && Unowned(Run(START, before).sessions, cid) {
        assert GainedAt(events, |before|, k, cid);
      }
    }
  }

  /**
   * In every run, a session owns a connection ID if and only if, since it began, its upstream announced
   * it as the source ID of a long header at a moment when no live session owned it.
   */
  lemma {:induction false} OwnedIfAnnouncedFirst(events: seq<Event>, k: Key, cid: Bytes)
    ensures OwnsCid(Run(START, events).sessions, k, cid) <==> Gained(events, k, cid)
  {
    if events != [] {
      hide Step, Inv, Gained, Announces, Unowned, OwnsCid;
      var before, e := events[..|events| - 1], events[|events| - 1];
      assert events == before + [e];
      OwnedIfAnnouncedFirst(before, k, cid);
      RunKeepsInv(before);
      StepOwns(Run(START, before), e, k, cid);
      GainedStep(before, e, k, cid);
    }
  }

  /*** The record of a session ***/

  /** A datagram of its client or its upstream, or the end of its open. */
  ghost predicate Touches(st: Router, e: Event, k: Key) {
    match e
    case ClientDatagram(_, _, _, _) => Destination(st, e) == Some(k)
    case UpstreamDatagram(j, _, _) => j == k
    case OpenSucceeds(j, _) => j == k && Connecting(st, k)
    case _ => false
  }

  function TimeOf(e: Event): int {
    match e
    case ClientDatagram(_, _, _, now) => now
    case UpstreamDatagram(_, _, now) => now
    case OpenSucceeds(_, now) => now
    case ReaperTick(now) => now
    case _ => 0
  }

  ghost predicate SameConnection(s: SessionState, t: SessionState) {
    t.client == s.client && t.scid == s.scid && t.route == s.route && t.timeout == s.timeout
  }

  ghost predicate Recorded(st: Router, e: Event, k: Key, s: SessionState, t: SessionState) {
    && SameConnection(s, t)
    && t.lastSeen == (if Touches(st, e, k) then TimeOf(e) else s.lastSeen)
    && t.received == s.received + if e.UpstreamDatagram? && e.k == k then 1 else 0
  }

  lemma ReplyRecord(st: Router, e: Event, k: Key)
    requires e.UpstreamDatagram? && e.k in st.sessions && k in st.sessions
    ensures k in Reply(st, e.k, e.data, e.now).sessions
    ensures Recorded(st, e, k, st.sessions[k], Reply(st, e.k, e.data, e.now).sessions[k])
  {
    hide Reply, AfterReply;
    ReplyKeeps(st, e.k, e.data, e.now);
    HeardKeys(st.sessions, e.k, e.data, e.now);
  }

  lemma ReceiveRecorded(st: Router, e: Event, k: Key)
    requires e.ClientDatagram? && k in st.sessions
    ensures k in Receive(st, e.data, e.addr, e.plaintext, e.now).sessions
    ensures Recorded(st, e, k, st.sessions[k], Receive(st, e.data, e.addr, e.plaintext, e.now).sessions[k])
  {
    hide InitialConnectionIds, SessionFor, Admit;
    if InitialConnectionIds(e.data).Ok? {
      QuietAdmission(st, e.data, InitialConnectionIds(e.data).value, e.addr, e.plaintext, e.now);
      AdmittedIsNotOpen(st, e);
    }
  }

  /** What an event makes of a session's record: who it is for never changes, and it is dated by its last datagram. */
  lemma SessionRecord(st: Router, e: Event, k: Key)
    requires Inv(st) && k in st.sessions && k in Step(st, e).sessions
    ensures Recorded(st, e, k, st.sessions[k], Step(st, e).sessions[k])
  {
    hide Receive, Reply, Bounded, Undecided, PausedForAwaiting, SessionsOwned;
    match e
    case ClientDatagram(_, _, _, _) => ReceiveRecorded(st, e, k);
    case UpstreamDatagram(j, _, _) =>
      if j in st.sessions {
        ReplyRecord(st, e, k);
      }
    case _ =>
  }

  /** A datagram that no session is found for does not name the key of one. */
  lemma AdmittedIsNotOpen(st: Router, e: Event)
    requires e.ClientDatagram? && InitialConnectionIds(e.data).Ok?
    ensures SessionFor(st.sessions, e.data, e.addr).None? ==>
              Key(e.addr, InitialConnectionIds(e.data).value.destination) !in st.sessions
  {
    hide InitialConnectionIds;
  }

  /** A session begins with what its open had: its queue, its route, and that route's timeout. */
  lemma SessionBegins(st: Router, e: Event, k: Key)
    requires Inv(st) && k !in st.sessions && k in Step(st, e).sessions
    ensures e.OpenSucceeds? && e.k == k && Connecting(st, k)
    ensures
      var o := st.opening[k];
      Step(st, e).sessions[k] ==
        SessionState(k.client, o.task.scid, o.task.route, o.task.route.idleTimeout, {}, e.now, 0, o.queue)
  {
    hide InitialConnectionIds, SessionFor, Admit, Reply, Bounded, Undecided, PausedForAwaiting, SessionsOwned;
    match e
    case ClientDatagram(data, addr, plaintext, now) =>
      if InitialConnectionIds(data).Ok? {
        QuietAdmission(st, data, InitialConnectionIds(data).value, addr, plaintext, now);
      }
    case UpstreamDatagram(j, data, now) =>
      if j in st.sessions {
        ReplyKeeps(st, j, data, now);
      }
    case _ =>
  }

  /** The last event that touched `k`, which has been open ever since. */
  ghost predicate LastTouchedAt(events: seq<Event>, i: nat, k: Key) {
    && i < |events| && Touches(Run(START, events[..i]), events[i], k)
    && forall j :: i < j < |events| ==> !Touches(Run(START, events[..j]), events[j], k)
  }

  ghost predicate DatedBy(events: seq<Event>, k: Key, time: int) {
    exists i: nat :: LastTouchedAt(events, i, k) && time == TimeOf(events[i])
  }

  lemma DatedStep(before: seq<Event>, e: Event, k: Key, time: int)
    ensures Touches(Run(START, before), e, k) ==> DatedBy(before + [e], k, TimeOf(e))
    ensures !Touches(Run(START, before), e, k) && DatedBy(before, k, time) ==> DatedBy(before + [e], k, time)
  {
    hide Run, Touches;
    var events := before + [e];
    assert events[..|before|] == before;
    assert forall j :: 0 <= j < |before| ==> events[..j] == before[..j];
    if Touches(Run(START, before), e, k) {
      assert LastTouchedAt(events, |before|, k);
    } else if DatedBy(before, k, time) {
      var i: nat :| LastTouchedAt(before, i, k) && time == TimeOf(before[i]);
      assert LastTouchedAt(events, i, k);
    }
  }

  /**
   * In every run a session is dated by the last datagram from its client or its upstream, or by its
   * opening, and times out as its route says; so the reaper takes exactly what has been silent for longer.
   */
  lemma {:induction false} SilentForTooLong(events: seq<Event>, k: Key)
    ensures
      var sessions := Run(START, events).sessions;
      k in sessions ==> DatedBy(events, k, sessions[k].lastSeen) && sessions[k].timeout == sessions[k].route.idleTimeout
  {
    if events != [] {
      hide Step, Inv, Touches, DatedBy;
      var before, e := events[..|events| - 1], events[|events| - 1];
      var st := Run(START, before);
      assert events == before + [e];
      SilentForTooLong(before, k);
      RunKeepsInv(before);
      if k in Step(st, e).sessions {
        if k in st.sessions {
          SessionRecord(st, e, k);
          DatedStep(before, e, k, st.sessions[k].lastSeen);
        } else {
          SessionBegins(st, e, k);
          DatedStep(before, e, k, 0);
          OpeningTouches(st, e, k);
        }
      }
    }
  }

  lemma OpeningTouches(st: Router, e: Event, k: Key)
    requires e.OpenSucceeds? && e.k == k && Connecting(st, k)
    ensures Touches(st, e, k)
  {
  }

  /*** The record of a connection that is not open yet ***/

  ghost predicate CollectingRecorded(st: Router, e: Event, k: Key, c: Collecting) {
    && (Destination(st, e) != Some(k) ==> k in st.collecting && c == st.collecting[k])
    && (Destination(st, e) == Some(k) ==>
          e.ClientDatagram? && c.seen == e.now && c.started == if k in st.collecting then st.collecting[k].started else e.now)
  }

  ghost predicate OpeningRecorded(st: Router, e: Event, k: Key, o: Opening) {
    if k in st.opening then
      var was := st.opening[k];
      && o.started == was.started && o.task.route == was.task.route && o.task.scid == was.task.scid
      && (o.task.connecting <==> was.task.connecting || e == OpenBegins(k))
    else
      && Destination(st, e) == Some(k) && e.ClientDatagram? && !o.task.connecting
      && InitialConnectionIds(e.data).Ok? && o.task.scid == InitialConnectionIds(e.data).value.source
      && o.started == if k in st.collecting then st.collecting[k].started else e.now
  }

  lemma CollectRecord(st: Router, e: Event, j: Key, c: Collecting, scid: Bytes, k: Key)
    requires e.ClientDatagram?
    ensures
      var post := Collect(st, j, c, e.plaintext, scid);
      && (k in post.collecting ==>
            if k == j then post.collecting[k].seen == c.seen && post.collecting[k].started == c.started
            else k in st.collecting && post.collecting[k] == st.collecting[k])
      && (k in post.opening ==>
            if k == j && k !in st.opening then post.opening[k].started == c.started && post.opening[k].task.scid == scid && !post.opening[k].task.connecting
            else k == j || (k in st.opening && post.opening[k] == st.opening[k]))
  {
    hide Inspect, Routable;
  }

  /** Another connection than the one a datagram is for keeps its record. */
  lemma AdmitOtherRecord(st: Router, e: Event, ids: Ids, k: Key)
    requires e.ClientDatagram? && k != Key(e.addr, ids.destination)
    ensures
      var post := Admit(st, e.data, ids, e.addr, e.plaintext, e.now);
      && (k in post.collecting ==> k in st.collecting && post.collecting[k] == st.collecting[k])
      && (k in post.opening ==> k in st.opening && post.opening[k] == st.opening[k])
  {
    hide Collect;
    var j := Key(e.addr, ids.destination);
    if j !in st.opening {
      var c := if j in st.collecting then st.collecting[j] else Collecting([], map[], e.now, e.now);
      CollectRecord(st, e, j, c.(queue := c.queue + [e.data], seen := e.now), ids.source, k);
    }
  }

  lemma AdmitOwnRecord(st: Router, e: Event, ids: Ids)
    requires e.ClientDatagram?
    ensures
      var post, k := Admit(st, e.data, ids, e.addr, e.plaintext, e.now), Key(e.addr, ids.destination);
      && (k in post.collecting && k !in st.opening ==>
            && post.collecting[k].seen == e.now
            && post.collecting[k].started == if k in st.collecting then st.collecting[k].started else e.now)
      && (k in st.opening ==>
            && k in post.opening && post.opening[k] == st.opening[k].(queue := post.opening[k].queue)
            && post.collecting == st.collecting)
      && (k in post.opening && k !in st.opening ==>
            && post.opening[k].task.scid == ids.source && !post.opening[k].task.connecting
            && post.opening[k].started == if k in st.collecting then st.collecting[k].started else e.now)
  {
    hide Collect;
    var k := Key(e.addr, ids.destination);
    if k !in st.opening {
      var c := if k in st.collecting then st.collecting[k] else Collecting([], map[], e.now, e.now);
      CollectRecord(st, e, k, c.(queue := c.queue + [e.data], seen := e.now), ids.source, k);
    }
  }

  lemma AdmitRecord(st: Router, e: Event, ids: Ids, k: Key)
    requires e.ClientDatagram? && OnePhase(st.sessions.Keys, st.collecting.Keys, st.opening.Keys)
    requires InitialConnectionIds(e.data) == Ok(ids) && Destination(st, e) == Some(Key(e.addr, ids.destination))
    ensures
      var post := Admit(st, e.data, ids, e.addr, e.plaintext, e.now);
      && (k in post.collecting ==> CollectingRecorded(st, e, k, post.collecting[k]))
      && (k in post.opening ==> OpeningRecorded(st, e, k, post.opening[k]))
  {
    hide InitialConnectionIds, Destination, Admit;
    if k == Key(e.addr, ids.destination) {
      AdmitOwnRecord(st, e, ids);
    } else {
      AdmitOtherRecord(st, e, ids, k);
    }
  }

  lemma QuietRecord(st: Router, e: Event, k: Key)
    requires Destination(st, e) != Some(k) && e != OpenBegins(k)
    ensures k in st.collecting ==> CollectingRecorded(st, e, k, st.collecting[k])
    ensures k in st.opening ==> OpeningRecorded(st, e, k, st.opening[k])
  {
  }

  lemma ReceiveRecord(st: Router, e: Event, k: Key)
    requires Inv(st) && e.ClientDatagram?
    ensures
      var post := Receive(st, e.data, e.addr, e.plaintext, e.now);
      && (k in post.collecting ==> CollectingRecorded(st, e, k, post.collecting[k]))
      && (k in post.opening ==> OpeningRecorded(st, e, k, post.opening[k]))
  {
    hide InitialConnectionIds, SessionFor, Admit, Bounded, Undecided, PausedForAwaiting, SessionsOwned,
      CollectingRecorded, OpeningRecorded;
    if Destination(st, e) != Some(k) {
      QuietRecord(st, e, k);
    }
    if SessionFor(st.sessions, e.data, e.addr).None? && InitialConnectionIds(e.data).Ok? {
      AdmitRecord(st, e, InitialConnectionIds(e.data).value, k);
    }
  }

  lemma BeginRecord(st: Router, e: Event, k: Key)
    requires e.OpenBegins?
    ensures k in st.collecting ==> CollectingRecorded(st, e, k, st.collecting[k])
    ensures k in Begin(st, e.k).opening ==> OpeningRecorded(st, e, k, Begin(st, e.k).opening[k])
  {
  }

  /** What an event makes of a connection that is not open: when it began and was last heard, and the open that was decided. */
  lemma PendingRecord(st: Router, e: Event, k: Key)
    requires Inv(st)
    ensures k in Step(st, e).collecting ==> CollectingRecorded(st, e, k, Step(st, e).collecting[k])
    ensures k in Step(st, e).opening ==> OpeningRecorded(st, e, k, Step(st, e).opening[k])
  {
    hide Receive, Reply, Inv, CollectingRecorded, OpeningRecorded;
    match e
    case ClientDatagram(_, _, _, _) => ReceiveRecord(st, e, k);
    case OpenBegins(_) =>
      hide Begin;
      BeginRecord(st, e, k);
      BeginKeeps(st, e.k);
    case UpstreamDatagram(j, data, now) =>
      QuietRecord(st, e, k);
      if j in st.sessions {
        ReplyKeeps(st, j, data, now);
      }
    case _ => QuietRecord(st, e, k);
  }

  lemma BeginKeeps(st: Router, k: Key)
    ensures Begin(st, k).collecting == st.collecting
  {
  }
}
