/** What the import preflight comes to, row by row: who is kept, who is set aside and why, and what is folded into whom. */
module PreflightOutcome {
  import opened Wrappers
  import opened Text
  import opened NpmPreflight
  import ClientHello

  /*** Which rows are kept ***/

  /** The first live row of its identifier. */
  predicate FirstLive(rows: seq<Row>, n: int) {
    && 0 <= n < |rows| && IdText(rows[n]) != "" && !rows[n].deleted
    && forall m :: 0 <= m < n && IdText(rows[m]) == IdText(rows[n]) ==> rows[m].deleted
  }

  ghost predicate IsFirstLive(rows: seq<Row>, row: Row) {
    exists n :: FirstLive(rows, n) && rows[n] == row
  }

  lemma FirstLiveMore(before: seq<Row>, last: Row, row: Row)
    ensures IsFirstLive(before + [last], row) <==> IsFirstLive(before, row) || (row == last && FirstLive(before + [last], |before|))
  {
    var rows := before + [last];
    assert forall n :: 0 <= n < |before| ==> rows[n] == before[n] && (FirstLive(rows, n) <==> FirstLive(before, n));
    if n :| FirstLive(before, n) && before[n] == row {
      assert FirstLive(rows, n) && rows[n] == row;
    }
    if n :| FirstLive(rows, n) && rows[n] == row {
      assert n < |before| ==> FirstLive(before, n);
    }
  }

  lemma {:induction false} KeptAreFirstLive(rows: seq<Row>, row: Row)
    ensures row in Kept(rows) <==> IsFirstLive(rows, row)
  {
    if rows != [] {
      hide IsFirstLive, Verdict, Ids;
      var before, last := rows[..|rows| - 1], rows[|rows| - 1];
      assert rows == before + [last];
      KeptAreFirstLive(before, row);
      FirstLiveMore(before, last, row);
      KeptExactly(rows, |before|);
    } else {
      assert Kept(rows) == [];
    }
  }

  /** Every reference that the row makes resolves to a record. */
  predicate RefersWell(tables: seq<Table>, row: Row) {
    && Resolves(tables, row.certificate, "certificates")
    && Resolves(tables, row.accessList, "access_lists")
    && Resolves(tables, row.owner, "users")
  }

  /** The fields whose references do not resolve, in the order they are looked at. */
  function Dangling(tables: seq<Table>, row: Row): seq<string> {
    (if Resolves(tables, row.certificate, "certificates") then [] else ["certificate_id"])
    + (if Resolves(tables, row.accessList, "access_lists") then [] else ["access_list_id"])
    + (if Resolves(tables, row.owner, "users") then [] else ["owner_user_id"])
  }

  lemma FieldResolves(tables: seq<Table>, field: string, r: Reference, collection: string)
    requires collection !in HOSTS
    ensures BrokenField(field, r, Ids(Kept(RowsOf(tables, collection)))) == if Resolves(tables, r, collection) then [] else [field]
  {
    hide Kept, RowsOf;
  }

  lemma BrokenAreDangling(tables: seq<Table>, row: Row)
    ensures BrokenFields(row, ExistingIn(tables)) == Dangling(tables, row)
    ensures Dangling(tables, row) == [] <==> RefersWell(tables, row)
  {
    hide BrokenField, Resolves, Kept, RowsOf, Ids;
    FieldResolves(tables, "certificate_id", row.certificate, "certificates");
    FieldResolves(tables, "access_list_id", row.accessList, "access_lists");
    FieldResolves(tables, "owner_user_id", row.owner, "users");
  }

  /**
   * The records of a collection are exactly its rows that are identified, live and the first such of their
   * identifier; of hosts, exactly those of them whose every reference resolves to a record.
   */
  lemma RecordsExactly(tables: seq<Table>, collection: string, row: Row)
    ensures row in RecordsFor(tables, collection) <==>
            IsFirstLive(RowsOf(tables, collection), row) && (collection in HOSTS ==> RefersWell(tables, row))
  {
    hide Kept, Resolved, RowsOf, IsFirstLive, RefersWell, BrokenFields, Dangling, ExistingIn, UniqueIds;
    var rows := RowsOf(tables, collection);
    KeptAreFirstLive(rows, row);
    KeptUnique(rows);
    ResolvedWithin(Kept(rows), ExistingIn(tables));
    BrokenAreDangling(tables, row);
  }

  /*** Which rows are set aside, and why ***/

  predicate EarlierLive(rows: seq<Row>, n: int) {
    exists m :: 0 <= m < n < |rows| && IdText(rows[m]) == IdText(rows[n]) && !rows[m].deleted
  }

  /** Why the row at `n` does not pass the first pass. */
  predicate RejectedFor(rows: seq<Row>, n: int, reason: Reason) {
    && 0 <= n < |rows|
    && match reason
       case MissingId => IdText(rows[n]) == ""
       case DuplicateId => IdText(rows[n]) != "" && EarlierLive(rows, n)
       case SoftDeleted => IdText(rows[n]) != "" && !EarlierLive(rows, n) && rows[n].deleted
       case Broken(_) => false
  }

  lemma VerdictIs(rows: seq<Row>, n: nat)
    requires n < |rows|
    ensures
      var verdict := Verdict(rows[n], Ids(Kept(rows[..n])));
      && (verdict.None? <==> FirstLive(rows, n))
      && (verdict.Some? ==> RejectedFor(rows, n, verdict.value))
      && (forall reason :: RejectedFor(rows, n, reason) ==> verdict == Some(reason))
  {
    if IdText(rows[n]) != "" {
      KeptIds(rows[..n], IdText(rows[n]));
      if row :| row in rows[..n] && IdText(row) == IdText(rows[n]) && !row.deleted {
        var m :| 0 <= m < n && rows[..n][m] == row;
        assert rows[m] == row;
      }
      if EarlierLive(rows, n) {
        var m :| 0 <= m < n && IdText(rows[m]) == IdText(rows[n]) && !rows[m].deleted;
        assert rows[m] in rows[..n];
      }
    }
  }

  function ShownId(row: Row): string {
    if IdText(row) == "" then "unknown" else IdText(row)
  }

  ghost predicate IsRejected(rows: seq<Row>, collection: string, q: Quarantined) {
    exists n :: RejectedFor(rows, n, q.reason) && q == Quarantined(collection, ShownId(rows[n]), q.reason, rows[n])
  }

  lemma RejectedMore(before: seq<Row>, last: Row, collection: string, q: Quarantined)
    ensures
      IsRejected(before + [last], collection, q) <==>
        IsRejected(before, collection, q)
        || (RejectedFor(before + [last], |before|, q.reason) && q == Quarantined(collection, ShownId(last), q.reason, last))
  {
    var rows := before + [last];
    assert forall n :: 0 <= n < |before| ==> rows[n] == before[n];
    assert forall n :: 0 <= n < |before| ==> (EarlierLive(rows, n) <==> EarlierLive(before, n));
    if n :| RejectedFor(before, n, q.reason) && q == Quarantined(collection, ShownId(before[n]), q.reason, before[n]) {
      assert RejectedFor(rows, n, q.reason) && rows[n] == before[n];
    }
    if n :| RejectedFor(rows, n, q.reason) && q == Quarantined(collection, ShownId(rows[n]), q.reason, rows[n]) {
      assert n < |before| ==> RejectedFor(before, n, q.reason);
    }
  }

  lemma {:induction false} RejectedExactly(rows: seq<Row>, collection: string, q: Quarantined)
    ensures q in Rejected(collection, rows) <==> IsRejected(rows, collection, q)
  {
    if rows != [] {
      hide IsRejected, Verdict, RejectedFor, Ids, Kept, FirstLive;
      var before, last := rows[..|rows| - 1], rows[|rows| - 1];
      assert rows == before + [last];
      RejectedExactly(before, collection, q);
      RejectedMore(before, last, collection, q);
      VerdictIs(rows, |before|);
    }
  }

  lemma {:induction false} UnresolvedExactly(collection: string, rows: seq<Row>, e: Existing, q: Quarantined)
    ensures q in Unresolved(collection, rows, e) <==>
            q.row in rows && BrokenFields(q.row, e) != [] && q == QuarantineOf(collection, q.row, Broken(BrokenFields(q.row, e)))
  {
    if rows != [] {
      hide BrokenFields;
      UnresolvedExactly(collection, rows[..|rows| - 1], e, q);
      assert rows == rows[..|rows| - 1] + [rows[|rows| - 1]];
    }
  }

  /**
   * The quarantine of a collection is exactly: a row without an identifier, one that an earlier live row
   * has, a deleted one, and a host with dangling references, which are named; each with its reason.
   */
  lemma QuarantinedExactly(tables: seq<Table>, collection: string, q: Quarantined)
    ensures q in QuarantineFor(tables, collection) <==>
            || IsRejected(RowsOf(tables, collection), collection, q)
            || (&& collection in HOSTS && IsFirstLive(RowsOf(tables, collection), q.row) && !RefersWell(tables, q.row)
                && q == Quarantined(collection, IdText(q.row), Broken(Dangling(tables, q.row)), q.row))
  {
    hide Kept, Rejected, Unresolved, RowsOf, IsFirstLive, IsRejected, RefersWell, BrokenFields, Dangling, ExistingIn;
    var rows := RowsOf(tables, collection);
    RejectedExactly(rows, collection, q);
    UnresolvedExactly(collection, Kept(rows), ExistingIn(tables), q);
    KeptAreFirstLive(rows, q.row);
    BrokenAreDangling(tables, q.row);
    if IsFirstLive(rows, q.row) {
      FirstLiveHasId(rows, q.row);
    }
  }

  lemma FirstLiveHasId(rows: seq<Row>, row: Row)
    requires IsFirstLive(rows, row)
    ensures IdText(row) != ""
  {
  }

  /*** Which table feeds which collection ***/

  /** Each supported table feeds its own collection. */
  lemma TablesFeed()
    ensures CollectionOf("user") == Some("users") && CollectionOf("certificate") == Some("certificates")
    ensures CollectionOf("access_list") == Some("access_lists") && CollectionOf("proxy_host") == Some("proxy_hosts")
    ensures CollectionOf("redirection_host") == Some("redirection_hosts") && CollectionOf("dead_host") == Some("dead_hosts")
    ensures CollectionOf("stream") == Some("streams") && CollectionOf("setting") == Some("settings")
    ensures CollectionOf("audit_log") == Some("audit_log") && CollectionOf("_credentials") == Some("_credentials")
  {
  }

  /** A table that goes by the name of a collection feeds that one. */
  lemma CollectionsFeed(table: string)
    requires table in COLLECTIONS
    ensures COLLECTIONS[table] !in COLLECTIONS ==> CollectionOf(COLLECTIONS[table]) == Some(COLLECTIONS[table])
  {
    hide COLLECTIONS;
    assert COLLECTIONS[table] in COLLECTIONS.Values;
  }

  /** Any other table is not supported. */
  lemma OthersFeedNothing(name: string)
    ensures CollectionOf(name).None? <==> forall table :: table in COLLECTIONS ==> name != table && name != COLLECTIONS[table]
  {
    hide COLLECTIONS;
  }

  /** A collection's rows are those of the tables that feed it. */
  lemma {:induction false} RowsOfExactly(tables: seq<Table>, collection: string, row: Row)
    ensures row in RowsOf(tables, collection) <==>
            exists t :: t in tables && CollectionOf(t.name) == Some(collection) && row in t.rows
  {
    if tables != [] {
      hide CollectionOf;
      var before, last := tables[..|tables| - 1], tables[|tables| - 1];
      assert tables == before + [last];
      RowsOfExactly(before, collection, row);
    }
  }

  /** There is a warning about a table exactly if it feeds none. */
  lemma {:induction false} UnsupportedExactly(tables: seq<Table>, w: Warning)
    ensures w in UnsupportedIn(tables) <==> exists t :: t in tables && CollectionOf(t.name).None? && w == Unsupported(t.name)
  {
    if tables != [] {
      hide CollectionOf;
      var before, last := tables[..|tables| - 1], tables[|tables| - 1];
      assert tables == before + [last];
      UnsupportedExactly(before, w);
    }
  }

  /*** What is folded into whom ***/

  /** No later row has its identifier: it is the one that related rows find. */
  predicate IsLast(rows: seq<Row>, i: int) {
    && 0 <= i < |rows|
    && forall k :: i < k < |rows| ==> OwnerKey(rows[k].id) != OwnerKey(rows[i].id)
  }

  lemma LastWithIs(rows: seq<Row>, key: string, i: nat)
    requires i < |rows|
    ensures LastWith(rows, key) == Some(i) <==> IsLast(rows, i) && OwnerKey(rows[i].id) == key
  {
  }

  /** What these children hold that belong to this key, in order. */
  function ContentsFor(children: seq<Child>, key: string): seq<string> {
    if children == [] then []
    else
      var last := children[|children| - 1];
      ContentsFor(children[..|children| - 1], key) + if OwnerKey(last.accessList) == key then [last.content] else []
  }

  function Other(f: Field): Field {
    if f.Items? then Clients else Items
  }

  lemma OneMoreChild(lists: seq<Row>, f: Field, child: Child, i: nat)
    requires i < |lists|
    ensures |WithChild(lists, f, child)| == |lists|
    ensures
      var post, mine := WithChild(lists, f, child), IsLast(lists, i) && OwnerKey(lists[i].id) == OwnerKey(child.accessList);
      && Children(post[i], f) == Children(lists[i], f) + (if mine then [child.content] else [])
      && Children(post[i], Other(f)) == Children(lists[i], Other(f))
  {
    hide LastWith, IsLast, OwnerKey;
    LastWithIs(lists, OwnerKey(child.accessList), i);
    NothingAdded(Children(lists[i], f));
  }

  lemma SameLastRows(a: seq<Row>, b: seq<Row>, i: nat)
    requires SameRows(a, b) && i < |a|
    ensures |a| == |b| && (IsLast(a, i) <==> IsLast(b, i)) && OwnerKey(a[i].id) == OwnerKey(b[i].id)
  {
    assert forall k :: 0 <= k < |a| ==> a[k].id == b[k].id;
  }

  /** Each list gains, after what it had, exactly the children of its identifier, in order, if it is the last with that identifier. */
  lemma {:induction false} FoldedExactly(lists: seq<Row>, f: Field, children: seq<Child>, i: nat)
    requires i < |lists|
    ensures |WithChildren(lists, f, children)| == |lists|
    ensures
      var post := WithChildren(lists, f, children)[i];
      && Children(post, f) == Children(lists[i], f) + (if IsLast(lists, i) then ContentsFor(children, OwnerKey(lists[i].id)) else [])
      && Children(post, Other(f)) == Children(lists[i], Other(f))
  {
    hide WithChild, IsLast, OwnerKey, SameRows, Children;
    if children == [] {
      NothingAdded(Children(lists[i], f));
    } else {
      var before, last := children[..|children| - 1], children[|children| - 1];
      var sofar := WithChildren(lists, f, before);
      FoldedExactly(lists, f, before, i);
      ChildrenKeepRows(lists, f, before);
      SameLastRows(lists, sofar, i);
      OneMoreChild(sofar, f, last, i);
      var key := OwnerKey(lists[i].id);
      Associates(Children(lists[i], f), ContentsFor(before, key), if OwnerKey(last.accessList) == key then [last.content] else []);
      NothingAdded(Children(sofar[i], f));
    }
  }

  /** The last of these that belongs to this key. */
  predicate LastFor(permissions: seq<Permission>, key: string, j: int) {
    && 0 <= j < |permissions| && OwnerKey(permissions[j].user) == key
    && forall k :: j < k < |permissions| ==> OwnerKey(permissions[k].user) != key
  }

  /** What a permission makes of its user: what it does not say is `user`, and `hidden` for each of the six kinds of resource. */
  predicate GrantedBy(p: Permission, was: Row, now: Row) {
    && now == was.(visibility := now.visibility, permissions := now.permissions)
    && now.visibility == Some(if p.visibility.Some? then p.visibility.value else "user")
    && now.permissions.Some?
    && now.permissions.value.Keys == {"proxy_hosts", "redirection_hosts", "dead_hosts", "streams", "access_lists", "certificates"}
    && forall column :: column in now.permissions.value ==>
         now.permissions.value[column] == if column in p.levels then p.levels[column] else "hidden"
  }

  lemma OneMoreGrant(users: seq<Row>, p: Permission, i: nat)
    requires i < |users|
    ensures |Granted(users, p)| == |users|
    ensures
      var mine := IsLast(users, i) && OwnerKey(users[i].id) == OwnerKey(p.user);
      if mine then GrantedBy(p, users[i], Granted(users, p)[i]) else Granted(users, p)[i] == users[i]
  {
    hide LastWith, IsLast, OwnerKey;
    LastWithIs(users, OwnerKey(p.user), i);
  }

  /** Only what permissions grant differs. */
  predicate OnlyGranted(was: Row, now: Row) {
    now == was.(visibility := now.visibility, permissions := now.permissions)
  }

  lemma GrantStep(users: seq<Row>, was: Row, p: Permission, i: nat)
    requires i < |users| && OnlyGranted(was, users[i])
    ensures |Granted(users, p)| == |users|
    ensures
      var mine, now := IsLast(users, i) && OwnerKey(users[i].id) == OwnerKey(p.user), Granted(users, p)[i];
      && OnlyGranted(was, now)
      && if mine then GrantedBy(p, was, now) else now == users[i]
  {
    hide Granted, IsLast, OwnerKey;
    OneMoreGrant(users, p, i);
  }

  lemma LastForMore(before: seq<Permission>, last: Permission, key: string, j: int)
    ensures LastFor(before + [last], key, j) <==>
            if OwnerKey(last.user) == key then j == |before| else LastFor(before, key, j)
  {
    var all := before + [last];
    assert all[|before|] == last && forall k :: 0 <= k < |before| ==> all[k] == before[k];
    if LastFor(all, key, j) && j < |before| {
      assert OwnerKey(all[|before|].user) != key;
    }
  }

  /** A user has what the last permission of its identifier grants, if it is the last user with it; otherwise what it had. */
  lemma {:induction false} GrantedExactly(users: seq<Row>, permissions: seq<Permission>, i: nat)
    requires i < |users|
    ensures |GrantAll(users, permissions)| == |users|
    ensures
      var post, key := GrantAll(users, permissions)[i], OwnerKey(users[i].id);
      && OnlyGranted(users[i], post)
      && (forall j :: LastFor(permissions, key, j) && IsLast(users, i) ==> GrantedBy(permissions[j], users[i], post))
      && (!IsLast(users, i) || (forall j :: !LastFor(permissions, key, j)) ==> post == users[i])
  {
    if permissions != [] {
      hide Granted, IsLast, OwnerKey, SameRows, GrantedBy, LastFor, OnlyGranted;
      var before, last := permissions[..|permissions| - 1], permissions[|permissions| - 1];
      assert permissions == before + [last];
      var sofar := GrantAll(users, before);
      GrantedExactly(users, before, i);
      GrantsKeepRows(users, before);
      SameLastRows(users, sofar, i);
      GrantStep(sofar, users[i], last, i);
      forall j
        ensures LastFor(permissions, OwnerKey(users[i].id), j) <==>
                if OwnerKey(last.user) == OwnerKey(users[i].id) then j == |before| else LastFor(before, OwnerKey(users[i].id), j)
        ensures LastFor(before, OwnerKey(users[i].id), j) ==> 0 <= j < |before| && permissions[j] == before[j]
      {
        LastForMore(before, last, OwnerKey(users[i].id), j);
        LastForRange(before, OwnerKey(users[i].id), j);
      }
    }
  }

  lemma LastForRange(permissions: seq<Permission>, key: string, j: int)
    ensures LastFor(permissions, key, j) ==> 0 <= j < |permissions|
  {
  }

  /*** Credentials and warnings ***/

  /** The login makes this credential: its owner's address is the identifier, folded and trimmed, and its secret the hash. */
  ghost predicate Credits(users: seq<Row>, a: Auth, row: Row) {
    && a.kind == "password" && a.secret != ""
    && exists i :: IsLast(users, i) && OwnerKey(users[i].id) == OwnerKey(a.user) && users[i].email != ""
         && row == Row(Given(ClientHello.CaseFold(Strip(users[i].email))), false, NoReference, NoReference, NoReference,
                       "", a.secret, None, None, [], [], "")
  }

  lemma CreditsIs(users: seq<Row>, a: Auth, row: Row)
    ensures CredentialOf(users, a) == Some(row) <==> Credits(users, a, row)
  {
    hide ClientHello.CaseFold, Strip;
    var i := LastWith(users, OwnerKey(a.user));
    if Credits(users, a, row) {
      var j :| IsLast(users, j) && OwnerKey(users[j].id) == OwnerKey(a.user) && users[j].email != ""
        && row == Row(Given(ClientHello.CaseFold(Strip(users[j].email))), false, NoReference, NoReference, NoReference,
                      "", a.secret, None, None, [], [], "");
      LastWithIs(users, OwnerKey(a.user), j);
    } else if i.Some? {
      LastWithIs(users, OwnerKey(a.user), i.value);
    }
  }

  /** The credentials are those of the logins, in order. */
  lemma {:induction false} CredentialsExactly(users: seq<Row>, auths: seq<Auth>)
    ensures forall row :: row in Credentials(users, auths) <==> exists a :: a in auths && Credits(users, a, row)
  {
    if auths != [] {
      hide CredentialOf, Credits;
      var before, last := auths[..|auths| - 1], auths[|auths| - 1];
      assert auths == before + [last];
      CredentialsExactly(users, before);
      forall row
        ensures CredentialOf(users, last) == Some(row) <==> Credits(users, last, row)
      {
        CreditsIs(users, last, row);
      }
    }
  }

  predicate HasOwner(rows: seq<Row>, key: string) {
    exists i :: 0 <= i < |rows| && OwnerKey(rows[i].id) == key
  }

  /** There is a warning about a permission exactly if it has no user. */
  lemma {:induction false} PermissionsWarned(users: seq<Row>, permissions: seq<Permission>, w: Warning)
    ensures w in PermissionWarnings(users, permissions) <==>
            exists p :: p in permissions && !HasOwner(users, OwnerKey(p.user)) && w == OrphanPermission(OwnerKey(p.user))
  {
    if permissions != [] {
      hide OwnerKey, LastWith;
      var before, last := permissions[..|permissions| - 1], permissions[|permissions| - 1];
      assert permissions == before + [last];
      PermissionsWarned(users, before, w);
      HasOwnerIs(users, OwnerKey(last.user));
    }
  }

  lemma HasOwnerIs(rows: seq<Row>, key: string)
    ensures HasOwner(rows, key) <==> LastWith(rows, key).Some?
  {
  }

  /** The login makes no credential, and the warning says so: for its kind, or else for its identifier. */
  ghost predicate LoginWarns(users: seq<Row>, a: Auth, w: Warning) {
    && (forall row :: !Credits(users, a, row))
    && w == if a.kind != "password" then UnsupportedAuth(a.kind) else OrphanAuth(OwnerKey(a.id))
  }

  lemma LoginWarnsIs(users: seq<Row>, a: Auth, w: Warning)
    ensures LoginWarns(users, a, w) <==>
            CredentialOf(users, a).None? && w == if a.kind != "password" then UnsupportedAuth(a.kind) else OrphanAuth(OwnerKey(a.id))
  {
    hide CredentialOf, Credits, OwnerKey;
    forall row
      ensures CredentialOf(users, a) == Some(row) <==> Credits(users, a, row)
    {
      CreditsIs(users, a, row);
    }
    assert CredentialOf(users, a).Some? ==> Credits(users, a, CredentialOf(users, a).value);
  }

  /** There is a warning about a login exactly if it makes no credential. */
  lemma {:induction false} LoginsWarned(users: seq<Row>, auths: seq<Auth>, w: Warning)
    ensures w in AuthWarnings(users, auths) <==> exists a :: a in auths && LoginWarns(users, a, w)
  {
    if auths != [] {
      hide OwnerKey, CredentialOf, LoginWarns;
      var before, last := auths[..|auths| - 1], auths[|auths| - 1];
      assert auths == before + [last];
      LoginsWarned(users, before, w);
      LoginWarnsIs(users, last, w);
    }
  }

  /** There is a warning about a list entry exactly if it has no list, and it names the entry's table. */
  lemma {:induction false} ChildrenWarned(lists: seq<Row>, f: Field, children: seq<Child>, w: Warning)
    ensures w in ChildWarnings(lists, f, children) <==>
            exists c :: c in children && !HasOwner(lists, OwnerKey(c.accessList))
              && w == OrphanChild(if f.Items? then "access_list_auth" else "access_list_client", OwnerKey(c.accessList))
  {
    if children != [] {
      hide OwnerKey, LastWith;
      var before, last := children[..|children| - 1], children[|children| - 1];
      assert children == before + [last];
      ChildrenWarned(lists, f, before, w);
      HasOwnerIs(lists, OwnerKey(last.accessList));
    }
  }

  /*** The tables that are left ***/

  /** Each table of the source stays in its place; users have their permissions, and access lists their entries. */
  lemma NormalizedTables(source: Source, i: nat)
    requires DistinctTables(source.tables) && i < |source.tables| && source.tables[i].name != "_credentials"
    ensures
      var t, post := source.tables[i], Normalized(source);
      && i < |post| && post[i].name == t.name
      && post[i].rows ==
         if t.name == "user" then GrantAll(t.rows, source.permissions)
         else if t.name == "access_list" then WithChildren(WithChildren(t.rows, Items, source.items), Clients, source.clients)
         else t.rows
  {
    hide GrantAll, WithChildren, Credentials, RowsNamed, Replaced;
    var users := GrantAll(RowsNamed(source.tables, "user"), source.permissions);
    var listed := RowsNamed(source.tables, "access_list");
    var lists := WithChildren(WithChildren(listed, Items, source.items), Clients, source.clients);
    var one := Replaced(source.tables, "user", users);
    var folded := Replaced(one, "access_list", lists);
    ReplacedAt(source.tables, "user", users);
    ReplacedAt(one, "access_list", lists);
    ReplacedAt(folded, "_credentials", Credentials(users, source.auths));
    RowsNamedAt(source.tables, i);
  }

  /** The credentials made from logins are a table of their own; without any, nothing is added. */
  lemma NormalizedCredentials(source: Source)
    ensures
      var credentials := Credentials(GrantAll(RowsNamed(source.tables, "user"), source.permissions), source.auths);
      if credentials == [] then |Normalized(source)| == |source.tables|
      else Table("_credentials", credentials) in Normalized(source)
  {
    hide GrantAll, WithChildren, Credentials, RowsNamed, Replaced;
    var users := GrantAll(RowsNamed(source.tables, "user"), source.permissions);
    var listed := RowsNamed(source.tables, "access_list");
    var lists := WithChildren(WithChildren(listed, Items, source.items), Clients, source.clients);
    var one := Replaced(source.tables, "user", users);
    var folded := Replaced(one, "access_list", lists);
    ReplacedAt(source.tables, "user", users);
    ReplacedAt(one, "access_list", lists);
    var credentials := Credentials(users, source.auths);
    ReplacedAt(folded, "_credentials", credentials);
    if credentials != [] && HasTable(folded, "_credentials") {
      var i :| 0 <= i < |folded| && folded[i].name == "_credentials";
      assert Replaced(folded, "_credentials", credentials)[i] == Table("_credentials", credentials);
    }
  }
}
