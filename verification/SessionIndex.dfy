/**
 * The indexes the router keeps beside its sessions: keys by client address,
 * owners by server connection ID, and a histogram of ID lengths. Each is
 * described against the plain map of sessions.
 */
module SessionIndex {
  import opened Wrappers
  import opened ByteStrings
  import opened RouterModel
  import opened Sorting
  import RouterRuns

  /*** Keys by client address ***/

  ghost predicate AddrIndex(sessions: Sessions, byAddr: map<Addr, set<Key>>) {
    && (forall a :: a in byAddr ==> byAddr[a] != {})
    && (forall a, k :: Listed(byAddr, a, k) <==> At(sessions, a, k))
  }

  predicate Listed(byAddr: map<Addr, set<Key>>, a: Addr, k: Key) {
    a in byAddr && k in byAddr[a]
  }

  function KeysAt(byAddr: map<Addr, set<Key>>, a: Addr): set<Key> {
    if a in byAddr then byAddr[a] else {}
  }

  function AddKey(byAddr: map<Addr, set<Key>>, a: Addr, k: Key): map<Addr, set<Key>> {
    byAddr[a := KeysAt(byAddr, a) + {k}]
  }

  function DropKey(byAddr: map<Addr, set<Key>>, a: Addr, k: Key): map<Addr, set<Key>> {
    if a !in byAddr then byAddr
    else if byAddr[a] - {k} == {} then byAddr - {a}
    else byAddr[a := byAddr[a] - {k}]
  }

  lemma AddrAdded(sessions: Sessions, byAddr: map<Addr, set<Key>>, k: Key, s: SessionState)
    requires AddrIndex(sessions, byAddr) && k !in sessions
    ensures AddrIndex(sessions[k := s], AddKey(byAddr, s.client, k))
  {
    var post, index := sessions[k := s], AddKey(byAddr, s.client, k);
    forall a, j
      ensures Listed(index, a, j) <==> At(post, a, j)
    {
      assert Listed(byAddr, a, j) <==> At(sessions, a, j);
    }
  }

  lemma AddrDropped(sessions: Sessions, byAddr: map<Addr, set<Key>>, k: Key)
    requires AddrIndex(sessions, byAddr) && k in sessions
    ensures AddrIndex(sessions - {k}, DropKey(byAddr, sessions[k].client, k))
  {
    var post, index := sessions - {k}, DropKey(byAddr, sessions[k].client, k);
    assert Listed(byAddr, sessions[k].client, k) by {
      assert At(sessions, sessions[k].client, k);
    }
    forall a, j
      ensures Listed(index, a, j) <==> At(post, a, j)
    {
      assert Listed(byAddr, a, j) <==> At(sessions, a, j);
    }
  }

  lemma AddrUnchanged(sessions: Sessions, byAddr: map<Addr, set<Key>>, k: Key, s: SessionState)
    requires AddrIndex(sessions, byAddr) && k in sessions && s.client == sessions[k].client
    ensures AddrIndex(sessions[k := s], byAddr)
  {
    var post := sessions[k := s];
    assert forall a, j :: At(post, a, j) <==> At(sessions, a, j);
  }

  /*** Owners by server connection ID ***/

  ghost predicate CidIndex(sessions: Sessions, byCid: map<Bytes, Key>) {
    forall cid, k :: Indexed(byCid, cid, k) <==> OwnsCid(sessions, k, cid)
  }

  predicate Indexed(byCid: map<Bytes, Key>, cid: Bytes, k: Key) {
    cid in byCid && byCid[cid] == k
  }

  lemma CidUnchanged(sessions: Sessions, byCid: map<Bytes, Key>, k: Key, s: SessionState)
    requires CidIndex(sessions, byCid) && k in sessions && s.serverCids == sessions[k].serverCids
    ensures CidIndex(sessions[k := s], byCid)
  {
    var post := sessions[k := s];
    assert forall j, cid :: OwnsCid(post, j, cid) <==> OwnsCid(sessions, j, cid);
  }

  /** `post` gives all of `cids` to `k` and is otherwise `byCid`. */
  ghost predicate Given(post: map<Bytes, Key>, byCid: map<Bytes, Key>, cids: set<Bytes>, k: Key) {
    forall cid, j :: Indexed(post, cid, j) <==> Indexed(byCid, cid, j) || (cid in cids && j == k)
  }

  lemma GivenOneMore(post: map<Bytes, Key>, byCid: map<Bytes, Key>, cids: set<Bytes>, cid: Bytes, k: Key)
    requires Given(post, byCid, cids, k) && cid !in byCid && cid !in cids
    ensures cid !in post
    ensures Given(post[cid := k], byCid, cids + {cid}, k)
  {
    if cid in post {
      assert Indexed(post, cid, post[cid]);
    }
    var more := post[cid := k];
    forall other, j
      ensures Indexed(more, other, j) <==> Indexed(byCid, other, j) || (other in cids + {cid} && j == k)
    {
      assert Indexed(post, other, j) <==> Indexed(byCid, other, j) || (other in cids && j == k);
    }
  }

  lemma CidAdded(sessions: Sessions, byCid: map<Bytes, Key>, k: Key, s: SessionState, index: map<Bytes, Key>)
    requires CidIndex(sessions, byCid) && k !in sessions
    requires Given(index, byCid, s.serverCids, k)
    ensures CidIndex(sessions[k := s], index)
  {
    var post := sessions[k := s];
    forall cid, j
      ensures Indexed(index, cid, j) <==> OwnsCid(post, j, cid)
    {
      assert Indexed(byCid, cid, j) <==> OwnsCid(sessions, j, cid);
      assert Indexed(index, cid, j) <==> Indexed(byCid, cid, j) || (cid in s.serverCids && j == k);
    }
  }

  lemma CidRegistered(sessions: Sessions, byCid: map<Bytes, Key>, k: Key, cid: Bytes)
    requires CidIndex(sessions, byCid) && k in sessions && cid !in byCid
    ensures CidIndex(sessions[k := sessions[k].(serverCids := sessions[k].serverCids + {cid})], byCid[cid := k])
  {
    var post, index := sessions[k := sessions[k].(serverCids := sessions[k].serverCids + {cid})], byCid[cid := k];
    forall other, j
      ensures Indexed(index, other, j) <==> OwnsCid(post, j, other)
    {
      assert Indexed(byCid, other, j) <==> OwnsCid(sessions, j, other);
      assert Indexed(byCid, cid, j) <==> OwnsCid(sessions, j, cid);
    }
  }

  /** Registering an ID, as the model says it, keeps the indexes that do not count lengths. */
  lemma Registered(sessions: Sessions, byAddr: map<Addr, set<Key>>, byCid: map<Bytes, Key>, k: Key, cid: Bytes)
    requires AddrIndex(sessions, byAddr) && CidIndex(sessions, byCid) && k in sessions
    ensures
      var named := sessions[k].(serverCids := sessions[k].serverCids + {cid});
      RegisterIn(sessions, k, cid) == if cid in byCid then sessions else sessions[k := named]
    ensures AddrIndex(RegisterIn(sessions, k, cid), byAddr)
    ensures CidIndex(RegisterIn(sessions, k, cid), if cid in byCid then byCid else byCid[cid := k])
  {
    hide AddrIndex, CidIndex;
    CidOwners(sessions, byCid, cid);
    if cid !in byCid {
      CidRegistered(sessions, byCid, k, cid);
      AddrUnchanged(sessions, byAddr, k, sessions[k].(serverCids := sessions[k].serverCids + {cid}));
    }
  }

  lemma CidDropped(sessions: Sessions, byCid: map<Bytes, Key>, k: Key)
    requires CidIndex(sessions, byCid) && k in sessions
    ensures CidIndex(sessions - {k}, byCid - OwnedAmong(byCid, sessions[k].serverCids, k))
  {
    var post, index := sessions - {k}, byCid - OwnedAmong(byCid, sessions[k].serverCids, k);
    forall cid, j
      ensures Indexed(index, cid, j) <==> OwnsCid(post, j, cid)
    {
      assert Indexed(byCid, cid, j) <==> OwnsCid(sessions, j, cid);
      assert Indexed(byCid, cid, k) <==> OwnsCid(sessions, k, cid);
    }
  }

  /** Those of `cids` that are indexed to `k`. */
  function OwnedAmong(byCid: map<Bytes, Key>, cids: set<Bytes>, k: Key): set<Bytes> {
    set cid | cid in cids && Indexed(byCid, cid, k)
  }

  lemma OwnedAmongGrows(byCid: map<Bytes, Key>, cids: set<Bytes>, cid: Bytes, k: Key)
    ensures byCid - OwnedAmong(byCid, {}, k) == byCid
    ensures
      var left := byCid - OwnedAmong(byCid, cids, k);
      byCid - OwnedAmong(byCid, cids + {cid}, k) == if Indexed(left, cid, k) then left - {cid} else left
  {
    assert OwnedAmong(byCid, cids + {cid}, k) ==
      OwnedAmong(byCid, cids, k) + if Indexed(byCid, cid, k) then {cid} else {};
  }

  lemma CidOwners(sessions: Sessions, byCid: map<Bytes, Key>, cid: Bytes)
    requires CidIndex(sessions, byCid)
    ensures cid in byCid <==> exists k :: OwnsCid(sessions, k, cid)
    ensures cid in byCid ==> OwnsCid(sessions, byCid[cid], cid)
  {
    if cid in byCid {
      assert Indexed(byCid, cid, byCid[cid]);
    }
  }

  /** Asking the index for the owner of an ID, and then for the key itself, is the scan for a long header. */
  lemma LongHeaderByIndex(sessions: Sessions, byCid: map<Bytes, Key>, dcid: Bytes, addr: Addr)
    requires SessionsOwned(sessions) && CidIndex(sessions, byCid)
    ensures LongHeaderSession(sessions, dcid, addr) ==
      if dcid in byCid && At(sessions, addr, byCid[dcid]) then Some(byCid[dcid])
      else if Key(addr, dcid) in sessions then Some(Key(addr, dcid))
      else None
  {
    assert forall k :: OwnsCid(sessions, k, dcid) <==> Indexed(byCid, dcid, k);
  }

  /** A change of a session that keeps its client and its IDs leaves every index as it is. */
  lemma IndexesUnchanged(sessions: Sessions, byAddr: map<Addr, set<Key>>, byCid: map<Bytes, Key>,
      counts: map<nat, nat>, lengths: seq<nat>, k: Key, s: SessionState)
    requires IndexesExact(sessions, byAddr, byCid, counts, lengths) && k in sessions
    requires s.client == sessions[k].client && s.serverCids == sessions[k].serverCids
    ensures IndexesExact(sessions[k := s], byAddr, byCid, counts, lengths)
  {
    AddrUnchanged(sessions, byAddr, k, s);
    CidUnchanged(sessions, byCid, k, s);
  }

  /*** The length histogram ***/

  function OfLength(cids: set<Bytes>, n: nat): set<Bytes> {
    set c | c in cids && |c| == n
  }

  /** Every length in use, with the exact number of IDs of that length. */
  ghost predicate Histogram(cids: set<Bytes>, counts: map<nat, nat>) {
    && (forall c :: c in cids ==> |c| in counts)
    && (forall n :: n in counts ==> counts[n] == |OfLength(cids, n)| > 0)
  }

  function CountUp(counts: map<nat, nat>, n: nat): map<nat, nat> {
    counts[n := (if n in counts then counts[n] else 0) + 1]
  }

  function CountDown(counts: map<nat, nat>, n: nat): map<nat, nat> {
    var count := if n in counts then counts[n] else 0;
    if count <= 1 then counts - {n} else counts[n := count - 1]
  }

  lemma OfLengthUp(cids: set<Bytes>, c: Bytes, n: nat)
    requires c !in cids
    ensures |OfLength(cids + {c}, n)| == |OfLength(cids, n)| + (if n == |c| then 1 else 0)
  {
    if n == |c| {
      assert OfLength(cids + {c}, n) == OfLength(cids, n) + {c};
    } else {
      assert OfLength(cids + {c}, n) == OfLength(cids, n);
    }
  }

  lemma HistogramUp(cids: set<Bytes>, counts: map<nat, nat>, c: Bytes)
    requires Histogram(cids, counts) && c !in cids
    ensures Histogram(cids + {c}, CountUp(counts, |c|))
  {
    var post := CountUp(counts, |c|);
    if |c| !in counts {
      assert OfLength(cids, |c|) == {};
    }
    hide OfLength;
    forall n | n in post
      ensures post[n] == |OfLength(cids + {c}, n)| > 0
    {
      OfLengthUp(cids, c, n);
    }
  }

  lemma HistogramDown(cids: set<Bytes>, counts: map<nat, nat>, c: Bytes)
    requires Histogram(cids, counts) && c in cids
    ensures Histogram(cids - {c}, CountDown(counts, |c|))
  {
    var post, left := CountDown(counts, |c|), OfLength(cids - {c}, |c|);
    assert OfLength(cids, |c|) == left + {c};
    forall n | n in post
      ensures post[n] == |OfLength(cids - {c}, n)| > 0
    {
      if n != |c| {
        assert OfLength(cids - {c}, n) == OfLength(cids, n);
      }
    }
    forall d | d in cids - {c}
      ensures |d| in post
    {
      if |d| == |c| {
        assert d in left;
      }
    }
  }

  /** `sorted(..., reverse=True)` over lengths. */
  function Descending(keys: set<nat>): (s: seq<nat>)
    ensures forall k :: k in s <==> k in keys
    ensures forall i, j :: 0 <= i < j < |s| ==> s[i] > s[j]
  {
    Sorted((a: nat, b: nat) => a > b, keys)
  }

  /** The histogram and the sorted lengths are exact for these IDs. */
  ghost predicate LengthsExact(cids: set<Bytes>, counts: map<nat, nat>, lengths: seq<nat>) {
    Histogram(cids, counts) && lengths == Descending(counts.Keys)
  }

  /** All the indexes say exactly what a scan of the sessions would. */
  ghost predicate IndexesExact(sessions: Sessions, byAddr: map<Addr, set<Key>>, byCid: map<Bytes, Key>,
      counts: map<nat, nat>, lengths: seq<nat>)
  {
    AddrIndex(sessions, byAddr) && CidIndex(sessions, byCid) && LengthsExact(byCid.Keys, counts, lengths)
  }

  /*** Looking up by length is the scan ***/

  /** The ID a datagram would carry if IDs had this length; a short datagram gives all it has. */
  predicate Hit(byCid: map<Bytes, Key>, keys: set<Key>, tail: Bytes, length: nat) {
    var cid := Slice(tail, 0, length);
    cid in byCid && byCid[cid] in keys
  }

  lemma MatchIsHit(sessions: Sessions, byAddr: map<Addr, set<Key>>, byCid: map<Bytes, Key>, counts: map<nat, nat>,
      addr: Addr, tail: Bytes, k: Key, cid: Bytes)
    requires AddrIndex(sessions, byAddr) && CidIndex(sessions, byCid) && Histogram(byCid.Keys, counts)
    requires Match(sessions, addr, tail, k, cid)
    ensures Hit(byCid, KeysAt(byAddr, addr), tail, |cid|) && |cid| in counts
  {
    assert Indexed(byCid, cid, k) && Listed(byAddr, addr, k);
    assert Slice(tail, 0, |cid|) == cid;
  }

  lemma HitIsMatch(sessions: Sessions, byAddr: map<Addr, set<Key>>, byCid: map<Bytes, Key>, addr: Addr, tail: Bytes, length: nat)
    requires AddrIndex(sessions, byAddr) && CidIndex(sessions, byCid)
    requires Hit(byCid, KeysAt(byAddr, addr), tail, length)
    ensures
      var cid := Slice(tail, 0, length);
      Match(sessions, addr, tail, byCid[cid], cid)
  {
    var cid := Slice(tail, 0, length);
    assert Indexed(byCid, cid, byCid[cid]) && Listed(byAddr, addr, byCid[cid]);
  }

  /** The first hit, trying the longest length first, is the longest match of the scan. */
  lemma FirstHitIsLongest(sessions: Sessions, byAddr: map<Addr, set<Key>>, byCid: map<Bytes, Key>, counts: map<nat, nat>,
      lengths: seq<nat>, addr: Addr, tail: Bytes, i: nat)
    requires SessionsOwned(sessions)
    requires AddrIndex(sessions, byAddr) && CidIndex(sessions, byCid) && Histogram(byCid.Keys, counts)
    requires lengths == Descending(counts.Keys) && i < |lengths|
    requires forall m :: 0 <= m < i ==> !Hit(byCid, KeysAt(byAddr, addr), tail, lengths[m])
    requires Hit(byCid, KeysAt(byAddr, addr), tail, lengths[i])
    ensures ShortHeaderSession(sessions, tail, addr) == Some(byCid[Slice(tail, 0, lengths[i])])
  {
    var cid := Slice(tail, 0, lengths[i]);
    HitIsMatch(sessions, byAddr, byCid, addr, tail, lengths[i]);
    forall j, other | Match(sessions, addr, tail, j, other)
      ensures |other| <= |cid|
    {
      MatchIsHit(sessions, byAddr, byCid, counts, addr, tail, j, other);
      assert |other| in lengths;
    }
    assert LongestMatch(sessions, addr, tail, byCid[cid], cid);
    RouterRuns.ShortHeaderExact(sessions, tail, addr);
  }

  lemma MatchesAreHits(sessions: Sessions, byAddr: map<Addr, set<Key>>, byCid: map<Bytes, Key>, counts: map<nat, nat>,
      lengths: seq<nat>, addr: Addr, tail: Bytes)
    requires AddrIndex(sessions, byAddr) && CidIndex(sessions, byCid) && Histogram(byCid.Keys, counts)
    requires lengths == Descending(counts.Keys)
    ensures forall k, cid :: Match(sessions, addr, tail, k, cid) ==>
              exists m :: 0 <= m < |lengths| && Hit(byCid, KeysAt(byAddr, addr), tail, lengths[m])
  {
    forall k, cid | Match(sessions, addr, tail, k, cid)
      ensures exists m :: 0 <= m < |lengths| && Hit(byCid, KeysAt(byAddr, addr), tail, lengths[m])
    {
      MatchIsHit(sessions, byAddr, byCid, counts, addr, tail, k, cid);
      var m :| 0 <= m < |lengths| && lengths[m] == |cid|;
    }
  }

  /** With no hit at any length, the client's only session is meant, if it has just one. */
  lemma NoHitIsOnlySession(sessions: Sessions, byAddr: map<Addr, set<Key>>, byCid: map<Bytes, Key>, counts: map<nat, nat>,
      lengths: seq<nat>, addr: Addr, tail: Bytes)
    requires SessionsOwned(sessions)
    requires AddrIndex(sessions, byAddr) && CidIndex(sessions, byCid) && Histogram(byCid.Keys, counts)
    requires lengths == Descending(counts.Keys)
    requires forall m :: 0 <= m < |lengths| ==> !Hit(byCid, KeysAt(byAddr, addr), tail, lengths[m])
    ensures
      var keys := KeysAt(byAddr, addr);
      && (forall k :: keys == {k} ==> ShortHeaderSession(sessions, tail, addr) == Some(k))
      && ((forall k :: keys != {k}) ==> ShortHeaderSession(sessions, tail, addr) == None)
  {
    var keys := KeysAt(byAddr, addr);
    MatchesAreHits(sessions, byAddr, byCid, counts, lengths, addr, tail);
    forall k
      ensures k in keys <==> At(sessions, addr, k)
    {
      assert Listed(byAddr, addr, k) <==> At(sessions, addr, k);
    }
    forall k | OnlySession(sessions, addr, k)
      ensures keys == {k}
    {
    }
    forall k | keys == {k}
      ensures OnlySession(sessions, addr, k)
    {
    }
    RouterRuns.ShortHeaderExact(sessions, tail, addr);
  }
}
