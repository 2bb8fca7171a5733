/**
 * The import preflight: folds related tables into their owners, keeps the
 * first good row of each identifier, and sets aside rows whose references do
 * not resolve. Nothing is lost on the way.
 */
module NpmPreflight {
  import opened Wrappers
  import opened StringOrder
  import opened Text
  import ClientHello

  /** An identifier as text; a null one reads `None`, a missing one has no text of its own. */
  datatype Id = Missing | Given(text: string)

  /** A reference field; null, zero as a number or as text, and the empty string refer to nothing. */
  datatype Reference = NoReference | To(id: string)

  datatype Row = Row(
    id: Id, deleted: bool, certificate: Reference, accessList: Reference, owner: Reference,
    email: string, secret: string, visibility: Option<string>, permissions: Option<map<string, string>>,
    items: seq<string>, clients: seq<string>, other: string)

  datatype Table = Table(name: string, rows: seq<Row>)

  /** A related row of a user; a column it does not have is missing from `levels`. */
  datatype Permission = Permission(user: Id, visibility: Option<string>, levels: map<string, string>)

  datatype Auth = Auth(id: Id, kind: string, user: Id, secret: string)

  datatype Child = Child(accessList: Id, content: string)

  /** The tables of a source; the related tables, which are folded away, stand apart. */
  datatype Source = Source(
    tables: seq<Table>, permissions: seq<Permission>, auths: seq<Auth>, items: seq<Child>, clients: seq<Child>)

  datatype Reason = MissingId | DuplicateId | SoftDeleted | Broken(fields: seq<string>)

  datatype Quarantined = Quarantined(collection: string, id: string, reason: Reason, row: Row)

  datatype Warning =
    | Unsupported(table: string)
    | OrphanPermission(user: string)
    | UnsupportedAuth(kind: string)
    | OrphanAuth(id: string)
    | OrphanChild(table: string, accessList: string)

  /*** Collections ***/

  const COLLECTIONS: map<string, string> := map[
    "user" := "users", "certificate" := "certificates", "access_list" := "access_lists",
    "proxy_host" := "proxy_hosts", "redirection_host" := "redirection_hosts", "dead_host" := "dead_hosts",
    "stream" := "streams", "setting" := "settings", "audit_log" := "audit_log", "_credentials" := "_credentials"]

  const HOSTS: seq<string> := ["proxy_hosts", "redirection_hosts", "dead_hosts", "streams"]

  /** A table may go by its own name or by its collection's. */
  function CollectionOf(table: string): Option<string> {
    if table in COLLECTIONS then Some(COLLECTIONS[table])
    else if table in COLLECTIONS.Values then Some(table)
    else None
  }

  /** All rows of the tables that make up a collection, in order. */
  function RowsOf(tables: seq<Table>, collection: string): seq<Row> {
    if tables == [] then []
    else
      var last := tables[|tables| - 1];
      RowsOf(tables[..|tables| - 1], collection) + if CollectionOf(last.name) == Some(collection) then last.rows else []
  }

  /*** Folding related tables into users and access lists ***/

  /** The text by which a related row finds its owner. */
  function OwnerKey(id: Id): string {
    if id.Missing? then "None" else id.text
  }

  function Keys(rows: seq<Row>): seq<string> {
    seq(|rows|, i requires 0 <= i < |rows| => OwnerKey(rows[i].id))
  }

  /** The last row of a key: it is the one that related rows are folded into. */
  function LastWith(rows: seq<Row>, key: string): (i: Option<nat>)
    ensures i.Some? ==> i.value < |rows| && OwnerKey(rows[i.value].id) == key
    ensures i.Some? ==> forall k :: i.value < k < |rows| ==> OwnerKey(rows[k].id) != key
    ensures i.None? ==> forall k :: 0 <= k < |rows| ==> OwnerKey(rows[k].id) != key
  {
    assert forall k :: 0 <= k < |rows| ==> Keys(rows)[k] == OwnerKey(rows[k].id);
    LastIndex(Keys(rows), key)
  }

  function RowsNamed(tables: seq<Table>, name: string): seq<Row> {
    if tables == [] then []
    else if tables[|tables| - 1].name == name then tables[|tables| - 1].rows
    else RowsNamed(tables[..|tables| - 1], name)
  }

  function Level(p: Permission, column: string): string {
    if column in p.levels then p.levels[column] else "hidden"
  }

  function Visibility(p: Permission): string {
    if p.visibility.Some? then p.visibility.value else "user"
  }

  function Levels(p: Permission): map<string, string> {
    map["proxy_hosts" := Level(p, "proxy_hosts"), "redirection_hosts" := Level(p, "redirection_hosts"),
        "dead_hosts" := Level(p, "dead_hosts"), "streams" := Level(p, "streams"),
        "access_lists" := Level(p, "access_lists"), "certificates" := Level(p, "certificates")]
  }

  function Granted(users: seq<Row>, p: Permission): seq<Row> {
    match LastWith(users, OwnerKey(p.user))
    case None => users
    case Some(i) => users[i := users[i].(visibility := Some(Visibility(p)), permissions := Some(Levels(p)))]
  }

  function GrantAll(users: seq<Row>, permissions: seq<Permission>): seq<Row> {
    if permissions == [] then users
    else Granted(GrantAll(users, permissions[..|permissions| - 1]), permissions[|permissions| - 1])
  }

  function CredentialOf(users: seq<Row>, a: Auth): Option<Row> {
    if a.kind != "password" then None
    else
      match LastWith(users, OwnerKey(a.user))
      case None => None
      case Some(i) =>
        if users[i].email == "" || a.secret == "" then None
        else
          Some(Row(Given(ClientHello.CaseFold(Strip(users[i].email))), false, NoReference, NoReference, NoReference,
                   "", a.secret, None, None, [], [], ""))
  }

  function Credentials(users: seq<Row>, auths: seq<Auth>): seq<Row> {
    if auths == [] then []
    else
      Credentials(users, auths[..|auths| - 1]) +
      match CredentialOf(users, auths[|auths| - 1]) { case None => [] case Some(row) => [row] }
  }

  /** The two fields of an access list that related tables are folded into. */
  datatype Field = Items | Clients

  function Children(row: Row, f: Field): seq<string> {
    if f.Items? then row.items else row.clients
  }

  function Adopted(row: Row, f: Field, content: string): Row {
    if f.Items? then row.(items := row.items + [content]) else row.(clients := row.clients + [content])
  }

  function WithChild(lists: seq<Row>, f: Field, child: Child): seq<Row> {
    match LastWith(lists, OwnerKey(child.accessList))
    case None => lists
    case Some(i) => lists[i := Adopted(lists[i], f, child.content)]
  }

  function WithChildren(lists: seq<Row>, f: Field, children: seq<Child>): seq<Row> {
    if children == [] then lists
    else WithChild(WithChildren(lists, f, children[..|children| - 1]), f, children[|children| - 1])
  }

  /*** Warnings about what has no owner ***/

  function PermissionWarnings(users: seq<Row>, permissions: seq<Permission>): seq<Warning> {
    if permissions == [] then []
    else
      var last := permissions[|permissions| - 1];
      PermissionWarnings(users, permissions[..|permissions| - 1]) +
      if LastWith(users, OwnerKey(last.user)).None? then [OrphanPermission(OwnerKey(last.user))] else []
  }

  function AuthWarnings(users: seq<Row>, auths: seq<Auth>): seq<Warning> {
    if auths == [] then []
    else
      var last := auths[|auths| - 1];
      AuthWarnings(users, auths[..|auths| - 1]) +
      if CredentialOf(users, last).Some? then []
      else if last.kind != "password" then [UnsupportedAuth(last.kind)]
      else [OrphanAuth(OwnerKey(last.id))]
  }

  function RelatedTable(f: Field): string {
    if f.Items? then "access_list_auth" else "access_list_client"
  }

  function ChildWarnings(lists: seq<Row>, f: Field, children: seq<Child>): seq<Warning> {
    if children == [] then []
    else
      var last := children[|children| - 1];
      ChildWarnings(lists, f, children[..|children| - 1]) +
      if LastWith(lists, OwnerKey(last.accessList)).None? then [OrphanChild(RelatedTable(f), OwnerKey(last.accessList))] else []
  }

  function FoldWarnings(source: Source): seq<Warning> {
    var users, lists := RowsNamed(source.tables, "user"), RowsNamed(source.tables, "access_list");
    PermissionWarnings(users, source.permissions)
    + AuthWarnings(GrantAll(users, source.permissions), source.auths)
    + ChildWarnings(lists, Items, source.items)
    + ChildWarnings(lists, Clients, source.clients)
  }

  /** The contents of those children whose access list exists. */
  function Owned(lists: seq<Row>, children: seq<Child>): seq<string> {
    if children == [] then []
    else
      var last := children[|children| - 1];
      Owned(lists, children[..|children| - 1]) +
      if LastWith(lists, OwnerKey(last.accessList)).Some? then [last.content] else []
  }

  /** What all the lists hold in one field, with multiplicity. */
  function AllChildren(lists: seq<Row>, f: Field): multiset<string> {
    if lists == [] then multiset{}
    else AllChildren(lists[..|lists| - 1], f) + multiset(Children(lists[|lists| - 1], f))
  }

  lemma AllButLast(lists: seq<Row>, row: Row, f: Field)
    ensures AllChildren(lists + [row], f) == AllChildren(lists, f) + multiset(Children(row, f))
  {
    assert (lists + [row])[..|lists|] == lists;
  }

  lemma {:induction false} AdoptedOnce(lists: seq<Row>, f: Field, i: nat, content: string)
    requires i < |lists|
    ensures AllChildren(lists[i := Adopted(lists[i], f, content)], f) == AllChildren(lists, f) + multiset{content}
  {
    hide AllChildren;
    var before, last := lists[..|lists| - 1], lists[|lists| - 1];
    var row := Adopted(lists[i], f, content);
    assert lists == before + [last];
    AllButLast(before, last, f);
    if i < |before| {
      hide Adopted, Children;
      AdoptedOnce(before, f, i, content);
      assert lists[i := row] == before[i := row] + [last];
      AllButLast(before[i := row], last, f);
    } else {
      assert lists[i := row] == before + [row];
      AllButLast(before, row, f);
      assert Children(row, f) == Children(last, f) + [content];
    }
  }

  lemma SameOwners(a: seq<Row>, b: seq<Row>, key: string)
    requires SameRows(a, b)
    ensures LastWith(a, key) == LastWith(b, key)
  {
    assert Keys(a) == Keys(b);
  }

  lemma {:induction false} FoldedOnce(lists: seq<Row>, f: Field, children: seq<Child>)
    ensures AllChildren(WithChildren(lists, f, children), f) == AllChildren(lists, f) + multiset(Owned(lists, children))
  {
    if children != [] {
      hide AllChildren, SameRows, Adopted, Children, LastWith, OwnerKey;
      var before, last := children[..|children| - 1], children[|children| - 1];
      FoldedOnce(lists, f, before);
      var folded := WithChildren(lists, f, before);
      ChildrenKeepRows(lists, f, before);
      SameOwners(lists, folded, OwnerKey(last.accessList));
      var i := LastWith(folded, OwnerKey(last.accessList));
      if i.Some? {
        AdoptedOnce(folded, f, i.value, last.content);
        assert Owned(lists, children) == Owned(lists, before) + [last.content];
      } else {
        assert Owned(lists, children) == Owned(lists, before);
      }
    }
  }

  lemma {:induction false} OwnedOrWarned(lists: seq<Row>, f: Field, children: seq<Child>)
    ensures |Owned(lists, children)| + |ChildWarnings(lists, f, children)| == |children|
  {
    if children != [] {
      OwnedOrWarned(lists, f, children[..|children| - 1]);
    }
  }

  /** Every related child is folded into exactly one list, or is warned about; nothing else comes into the lists. */
  lemma FoldedOrWarned(lists: seq<Row>, f: Field, children: seq<Child>)
    ensures AllChildren(WithChildren(lists, f, children), f) == AllChildren(lists, f) + multiset(Owned(lists, children))
    ensures |Owned(lists, children)| + |ChildWarnings(lists, f, children)| == |children|
  {
    FoldedOnce(lists, f, children);
    OwnedOrWarned(lists, f, children);
  }

  /** Every login becomes a credential or a warning. */
  lemma {:induction false} CredentialsOrWarned(users: seq<Row>, auths: seq<Auth>)
    ensures |Credentials(users, auths)| + |AuthWarnings(users, auths)| == |auths|
  {
    if auths != [] {
      CredentialsOrWarned(users, auths[..|auths| - 1]);
    }
  }

  /** Every table of this name has these rows now. */
  function Replaced(tables: seq<Table>, name: string, rows: seq<Row>): seq<Table> {
    if tables == [] then []
    else
      var last := tables[|tables| - 1];
      Replaced(tables[..|tables| - 1], name, rows) + [if last.name == name then Table(name, rows) else last]
  }

  predicate HasTable(tables: seq<Table>, name: string) {
    exists i :: 0 <= i < |tables| && tables[i].name == name
  }

  /** Assigning a table in an ordered dictionary keeps its place, or puts a new one at the end. */
  function Assigned(tables: seq<Table>, name: string, rows: seq<Row>): seq<Table> {
    if HasTable(tables, name) then Replaced(tables, name, rows) else tables + [Table(name, rows)]
  }

  function Normalized(source: Source): seq<Table> {
    var users := GrantAll(RowsNamed(source.tables, "user"), source.permissions);
    var lists := WithChildren(WithChildren(RowsNamed(source.tables, "access_list"), Items, source.items), Clients, source.clients);
    var credentials := Credentials(users, source.auths);
    var folded := Replaced(Replaced(source.tables, "user", users), "access_list", lists);
    if credentials == [] then folded else Assigned(folded, "_credentials", credentials)
  }

  /** Folding changes only what is folded in: the rows stay, in their places, with their identifiers and references. */
  predicate SameRows(a: seq<Row>, b: seq<Row>) {
    && |a| == |b|
    && forall i :: 0 <= i < |a| ==>
         b[i].(visibility := a[i].visibility, permissions := a[i].permissions, items := a[i].items, clients := a[i].clients) == a[i]
  }

  lemma {:induction false} GrantsKeepRows(users: seq<Row>, permissions: seq<Permission>)
    ensures SameRows(users, GrantAll(users, permissions))
  {
    if permissions != [] {
      GrantsKeepRows(users, permissions[..|permissions| - 1]);
    }
  }

  lemma {:induction false} ChildrenKeepRows(lists: seq<Row>, f: Field, children: seq<Child>)
    ensures SameRows(lists, WithChildren(lists, f, children))
  {
    if children != [] {
      ChildrenKeepRows(lists, f, children[..|children| - 1]);
    }
  }

  lemma SameAsBoth(a: seq<Row>, b: seq<Row>, c: seq<Row>)
    requires SameRows(a, b) && SameRows(b, c)
    ensures SameRows(a, c)
  {
  }

  /** Each table occurs once, as the keys of a dictionary do. */
  predicate DistinctTables(tables: seq<Table>) {
    forall i, j :: 0 <= i < j < |tables| ==> tables[i].name != tables[j].name
  }

  lemma {:induction false} ReplacedAt(tables: seq<Table>, name: string, rows: seq<Row>)
    ensures |Replaced(tables, name, rows)| == |tables|
    ensures forall i :: 0 <= i < |tables| ==>
              Replaced(tables, name, rows)[i] == if tables[i].name == name then Table(name, rows) else tables[i]
  {
    if tables != [] {
      ReplacedAt(tables[..|tables| - 1], name, rows);
    }
  }

  lemma {:induction false} RowsNamedAt(tables: seq<Table>, i: nat)
    requires DistinctTables(tables) && i < |tables|
    ensures RowsNamed(tables, tables[i].name) == tables[i].rows
  {
    if i < |tables| - 1 {
      RowsNamedAt(tables[..|tables| - 1], i);
    }
  }

  /** Every table of the source is still there, row for row; only credentials made from logins may replace one. */
  lemma NormalizedKeepsRows(source: Source, i: nat)
    requires DistinctTables(source.tables) && i < |source.tables|
    ensures
      var t := source.tables[i];
      var post := Normalized(source);
      && i < |post| && post[i].name == t.name
      && (t.name != "_credentials" ==> SameRows(t.rows, post[i].rows))
      && (t.name != "_credentials" && t.name != "user" && t.name != "access_list" ==> post[i] == t)
  {
    hide GrantAll, WithChildren, Credentials, SameRows, RowsNamed, Replaced;
    var users := GrantAll(RowsNamed(source.tables, "user"), source.permissions);
    var listed := RowsNamed(source.tables, "access_list");
    var itemized := WithChildren(listed, Items, source.items);
    var lists := WithChildren(itemized, Clients, source.clients);
    var credentials := Credentials(users, source.auths);
    var one := Replaced(source.tables, "user", users);
    var folded := Replaced(one, "access_list", lists);
    ReplacedAt(source.tables, "user", users);
    ReplacedAt(one, "access_list", lists);
    ReplacedAt(folded, "_credentials", credentials);
    RowsNamedAt(source.tables, i);
    GrantsKeepRows(RowsNamed(source.tables, "user"), source.permissions);
    ChildrenKeepRows(listed, Items, source.items);
    ChildrenKeepRows(itemized, Clients, source.clients);
    SameAsBoth(listed, itemized, lists);
    Same(source.tables[i].rows);
  }

  lemma Same(rows: seq<Row>)
    ensures SameRows(rows, rows)
  {
  }

  function UnsupportedIn(tables: seq<Table>): seq<Warning> {
    if tables == [] then []
    else
      var last := tables[|tables| - 1];
      UnsupportedIn(tables[..|tables| - 1]) + if CollectionOf(last.name).None? then [Unsupported(last.name)] else []
  }

  /*** The first pass: identifiers ***/

  function IdText(row: Row): string {
    if row.id.Missing? then "" else row.id.text
  }

  function Ids(rows: seq<Row>): set<string> {
    set row | row in rows :: IdText(row)
  }

  function Verdict(row: Row, seen: set<string>): Option<Reason> {
    if IdText(row) == "" then Some(MissingId)
    else if IdText(row) in seen then Some(DuplicateId)
    else if row.deleted then Some(SoftDeleted)
    else None
  }

  /** The rows of a collection that pass: live, identified, and the first such of their identifier. */
  function Kept(rows: seq<Row>): seq<Row> {
    if rows == [] then []
    else
      var before, last := Kept(rows[..|rows| - 1]), rows[|rows| - 1];
      if Verdict(last, Ids(before)).None? then before + [last] else before
  }

  function QuarantineOf(collection: string, row: Row, reason: Reason): Quarantined {
    Quarantined(collection, if IdText(row) == "" then "unknown" else IdText(row), reason, row)
  }

  function Rejected(collection: string, rows: seq<Row>): seq<Quarantined> {
    if rows == [] then []
    else
      var last := rows[|rows| - 1];
      var verdict := Verdict(last, Ids(Kept(rows[..|rows| - 1])));
      Rejected(collection, rows[..|rows| - 1]) +
      if verdict.None? then [] else [QuarantineOf(collection, last, verdict.value)]
  }

  /*** The second pass: references ***/

  function BrokenField(field: string, r: Reference, existing: set<string>): seq<string> {
    if r.To? && r.id !in existing then [field] else []
  }

  /** What exists for hosts to refer to. */
  datatype Existing = Existing(certificates: set<string>, accessLists: set<string>, users: set<string>)

  function BrokenFields(row: Row, e: Existing): seq<string> {
    BrokenField("certificate_id", row.certificate, e.certificates)
    + BrokenField("access_list_id", row.accessList, e.accessLists)
    + BrokenField("owner_user_id", row.owner, e.users)
  }

  function Resolved(rows: seq<Row>, e: Existing): seq<Row> {
    if rows == [] then []
    else
      var last := rows[|rows| - 1];
      Resolved(rows[..|rows| - 1], e) + if BrokenFields(last, e) == [] then [last] else []
  }

  function Unresolved(collection: string, rows: seq<Row>, e: Existing): seq<Quarantined> {
    if rows == [] then []
    else
      var last := rows[|rows| - 1];
      Unresolved(collection, rows[..|rows| - 1], e) +
      if BrokenFields(last, e) == [] then [] else [QuarantineOf(collection, last, Broken(BrokenFields(last, e)))]
  }

  function ExistingIn(tables: seq<Table>): Existing {
    Existing(
      Ids(Kept(RowsOf(tables, "certificates"))),
      Ids(Kept(RowsOf(tables, "access_lists"))),
      Ids(Kept(RowsOf(tables, "users"))))
  }

  /*** What the report says of each collection ***/

  function RecordsFor(tables: seq<Table>, collection: string): seq<Row> {
    var kept := Kept(RowsOf(tables, collection));
    if collection in HOSTS then Resolved(kept, ExistingIn(tables)) else kept
  }

  function QuarantineFor(tables: seq<Table>, collection: string): seq<Quarantined> {
    var rows := RowsOf(tables, collection);
    Rejected(collection, rows) + if collection in HOSTS then Unresolved(collection, Kept(rows), ExistingIn(tables)) else []
  }

  function RowsIn(quarantine: seq<Quarantined>): seq<Row> {
    seq(|quarantine|, i requires 0 <= i < |quarantine| => quarantine[i].row)
  }

  /** The part of a quarantine that belongs to one collection. */
  function InCollection(quarantine: seq<Quarantined>, collection: string): seq<Quarantined> {
    if quarantine == [] then []
    else
      var last := quarantine[|quarantine| - 1];
      InCollection(quarantine[..|quarantine| - 1], collection) + if last.collection == collection then [last] else []
  }

  /*** Nothing is lost, identifiers are unique, references resolve ***/

  lemma RowsInAppend(a: seq<Quarantined>, b: seq<Quarantined>)
    ensures RowsIn(a + b) == RowsIn(a) + RowsIn(b)
  {
  }

  /** A row goes to one side or the other. */
  lemma OneMoreConserved(kept: seq<Row>, quarantine: seq<Quarantined>, rows: seq<Row>, row: Row, q: Quarantined)
    requires multiset(kept) + multiset(RowsIn(quarantine)) == multiset(rows) && q.row == row
    ensures multiset(kept + [row]) + multiset(RowsIn(quarantine + [])) == multiset(rows + [row])
    ensures multiset(kept + []) + multiset(RowsIn(quarantine + [q])) == multiset(rows + [row])
  {
    assert RowsIn(quarantine + [q]) == RowsIn(quarantine) + [row];
    assert quarantine + [] == quarantine && kept + [] == kept;
  }

  lemma {:induction false} FirstPassConserves(collection: string, rows: seq<Row>)
    ensures multiset(Kept(rows)) + multiset(RowsIn(Rejected(collection, rows))) == multiset(rows)
  {
    if rows != [] {
      hide Verdict, Ids, RowsIn;
      var before, last := rows[..|rows| - 1], rows[|rows| - 1];
      FirstPassConserves(collection, before);
      assert rows == before + [last];
      var verdict := Verdict(last, Ids(Kept(before)));
      var q := QuarantineOf(collection, last, if verdict.Some? then verdict.value else MissingId);
      OneMoreConserved(Kept(before), Rejected(collection, before), before, last, q);
      assert Kept(before) + [] == Kept(before);
    }
  }

  lemma {:induction false} SecondPassConserves(collection: string, rows: seq<Row>, e: Existing)
    ensures multiset(Resolved(rows, e)) + multiset(RowsIn(Unresolved(collection, rows, e))) == multiset(rows)
  {
    if rows != [] {
      hide BrokenFields, RowsIn;
      var before, last := rows[..|rows| - 1], rows[|rows| - 1];
      SecondPassConserves(collection, before, e);
      assert rows == before + [last];
      var q := QuarantineOf(collection, last, Broken(BrokenFields(last, e)));
      OneMoreConserved(Resolved(before, e), Unresolved(collection, before, e), before, last, q);
      assert Resolved(before, e) + [] == Resolved(before, e);
    }
  }

  /** Every row of a supported table ends in exactly one place: among the records, or in quarantine. */
  lemma PreflightConserves(tables: seq<Table>, collection: string)
    ensures
      multiset(RecordsFor(tables, collection)) + multiset(RowsIn(QuarantineFor(tables, collection)))
      == multiset(RowsOf(tables, collection))
  {
    hide Kept, Rejected, Resolved, Unresolved, ExistingIn;
    var rows := RowsOf(tables, collection);
    FirstPassConserves(collection, rows);
    SecondPassConserves(collection, Kept(rows), ExistingIn(tables));
    RowsInAppend(Rejected(collection, rows), Unresolved(collection, Kept(rows), ExistingIn(tables)));
    assert Rejected(collection, rows) + [] == Rejected(collection, rows);
  }

  predicate UniqueIds(rows: seq<Row>) {
    && (forall row :: row in rows ==> IdText(row) != "" && !row.deleted)
    && (forall i, j :: 0 <= i < j < |rows| ==> IdText(rows[i]) != IdText(rows[j]))
  }

  lemma {:induction false} KeptUnique(rows: seq<Row>)
    ensures UniqueIds(Kept(rows))
  {
    if rows != [] {
      KeptUnique(rows[..|rows| - 1]);
      var before := Kept(rows[..|rows| - 1]);
      forall i | 0 <= i < |before|
        ensures IdText(before[i]) in Ids(before)
      {
      }
    }
  }

  lemma {:induction false} ResolvedWithin(rows: seq<Row>, e: Existing)
    requires UniqueIds(rows)
    ensures UniqueIds(Resolved(rows, e)) && forall row :: row in Resolved(rows, e) <==> row in rows && BrokenFields(row, e) == []
  {
    if rows != [] {
      hide BrokenFields, IdText;
      var init, last := rows[..|rows| - 1], rows[|rows| - 1];
      assert rows == init + [last];
      assert forall i :: 0 <= i < |init| ==> init[i] == rows[i];
      ResolvedWithin(init, e);
      var before := Resolved(init, e);
      forall i | 0 <= i < |before|
        ensures IdText(before[i]) != IdText(last)
      {
        assert before[i] in init;
      }
    }
  }

  /** A reference that is made resolves to a record of this collection. */
  predicate Resolves(tables: seq<Table>, r: Reference, collection: string) {
    r.To? ==> exists row :: row in RecordsFor(tables, collection) && IdText(row) == r.id
  }

  /**
   * One pass is enough: every surviving host refers only to surviving records, because what hosts refer
   * to does not itself refer to anything.
   */
  lemma SurvivorsResolve(tables: seq<Table>, collection: string)
    ensures UniqueIds(RecordsFor(tables, collection))
    ensures collection in HOSTS ==> forall row :: row in RecordsFor(tables, collection) ==>
              && Resolves(tables, row.certificate, "certificates")
              && Resolves(tables, row.accessList, "access_lists")
              && Resolves(tables, row.owner, "users")
  {
    hide Kept, Resolved, RowsOf;
    KeptUnique(RowsOf(tables, collection));
    ResolvedWithin(Kept(RowsOf(tables, collection)), ExistingIn(tables));
    if collection in HOSTS {
      forall row | row in RecordsFor(tables, collection)
        ensures Resolves(tables, row.certificate, "certificates")
        ensures Resolves(tables, row.accessList, "access_lists")
        ensures Resolves(tables, row.owner, "users")
      {
        var e := ExistingIn(tables);
        assert BrokenFields(row, e) == [];
        assert BrokenField("certificate_id", row.certificate, e.certificates) == [];
        assert BrokenField("access_list_id", row.accessList, e.accessLists) == [];
        assert BrokenField("owner_user_id", row.owner, e.users) == [];
      }
    }
  }

  /** A row is kept if and only if it is the first live row of its identifier. */
  lemma {:induction false} KeptExactly(rows: seq<Row>, n: nat)
    requires n < |rows|
    ensures
      Verdict(rows[n], Ids(Kept(rows[..n]))).None? <==>
        && IdText(rows[n]) != "" && !rows[n].deleted
        && forall m :: 0 <= m < n && IdText(rows[m]) == IdText(rows[n]) ==> rows[m].deleted
  {
    if IdText(rows[n]) != "" {
      KeptIds(rows[..n], IdText(rows[n]));
    }
  }

  lemma {:induction false} KeptIds(rows: seq<Row>, id: string)
    requires id != ""
    ensures id in Ids(Kept(rows)) <==> exists row :: row in rows && IdText(row) == id && !row.deleted
  {
    if rows != [] {
      var before, last := rows[..|rows| - 1], rows[|rows| - 1];
      KeptIds(before, id);
      assert rows == before + [last];
      var kept := Kept(before);
      assert Ids(kept + [last]) == Ids(kept) + {IdText(last)};
    }
  }

  /*** The report, as it is built ***/

  /** Records by collection, and the identifiers seen in each. */
  type Records = map<string, seq<Row>>

  type Seen = map<string, set<string>>

  function RecordsIn(records: Records, collection: string): seq<Row> {
    if collection in records then records[collection] else []
  }

  function SeenIn(seen: Seen, collection: string): set<string> {
    if collection in seen then seen[collection] else {}
  }

  predicate AllIn(quarantine: seq<Quarantined>, collection: string) {
    forall i :: 0 <= i < |quarantine| ==> quarantine[i].collection == collection
  }

  lemma CollectionNext(quarantine: seq<Quarantined>, q: Quarantined, c: string)
    ensures InCollection(quarantine + [q], c) == InCollection(quarantine, c) + if c == q.collection then [q] else []
  {
    assert (quarantine + [q])[..|quarantine|] == quarantine;
  }

  lemma {:induction false} CollectionAppend(quarantine: seq<Quarantined>, more: seq<Quarantined>, collection: string, c: string)
    requires AllIn(more, collection)
    ensures InCollection(quarantine + more, c) == InCollection(quarantine, c) + if c == collection then more else []
  {
    hide InCollection;
    if more == [] {
      assert quarantine + more == quarantine;
      assert InCollection(quarantine, c) + [] == InCollection(quarantine, c);
    } else {
      var init, last := more[..|more| - 1], more[|more| - 1];
      CollectionAppend(quarantine, init, collection, c);
      CollectionNext(quarantine + init, last, c);
      assert more == init + [last] && quarantine + more == quarantine + init + [last];
    }
  }

  lemma SiftOne(collection: string, rows: seq<Row>, row: Row)
    ensures
      var verdict := Verdict(row, Ids(Kept(rows)));
      && Kept(rows + [row]) == Kept(rows) + (if verdict.None? then [row] else [])
      && Rejected(collection, rows + [row]) ==
         Rejected(collection, rows) + if verdict.None? then [] else [QuarantineOf(collection, row, verdict.value)]
  {
    assert (rows + [row])[..|rows|] == rows;
  }

  lemma OneMoreId(rows: seq<Row>, row: Row)
    ensures Ids(rows + [row]) == Ids(rows) + {IdText(row)}
  {
  }

  /** After the first pass over these tables. */
  ghost predicate Passed(records: Records, quarantine: seq<Quarantined>, seen: Seen, tables: seq<Table>) {
    forall c :: PassedIn(records, quarantine, seen, tables, c)
  }

  predicate PassedIn(records: Records, quarantine: seq<Quarantined>, seen: Seen,
      tables: seq<Table>, c: string)
  {
    && RecordsIn(records, c) == Kept(RowsOf(tables, c))
    && InCollection(quarantine, c) == Rejected(c, RowsOf(tables, c))
    && SeenIn(seen, c) == Ids(Kept(RowsOf(tables, c)))
  }

  lemma UnsupportedMore(tables: seq<Table>, table: Table)
    ensures UnsupportedIn(tables + [table]) ==
            UnsupportedIn(tables) + if CollectionOf(table.name).None? then [Unsupported(table.name)] else []
  {
    assert (tables + [table])[..|tables|] == tables;
  }

  lemma NothingPassed()
    ensures Passed(map[], [], map[], []) && UnsupportedIn([]) == []
  {
  }

  lemma RowsOfMore(tables: seq<Table>, table: Table, c: string)
    ensures RowsOf(tables + [table], c) == RowsOf(tables, c) + if CollectionOf(table.name) == Some(c) then table.rows else []
  {
    assert (tables + [table])[..|tables|] == tables;
  }

  lemma PassedSkip(records: Records, quarantine: seq<Quarantined>, seen: Seen, tables: seq<Table>, table: Table)
    requires Passed(records, quarantine, seen, tables) && CollectionOf(table.name).None?
    ensures Passed(records, quarantine, seen, tables + [table])
  {
    hide Kept, Rejected, InCollection, RowsOf, Ids, CollectionOf;
    forall c
      ensures PassedIn(records, quarantine, seen, tables + [table], c)
    {
      RowsOfMore(tables, table, c);
      assert PassedIn(records, quarantine, seen, tables, c);
      assert RowsOf(tables, c) + [] == RowsOf(tables, c);
    }
  }

  lemma PassedMore(records: Records, quarantine: seq<Quarantined>, seen: Seen, tables: seq<Table>,
      table: Table, collection: string, bucket: seq<Row>, now: set<string>, rejected: seq<Quarantined>)
    requires Passed(records, quarantine, seen, tables) && CollectionOf(table.name) == Some(collection)
    requires Kept(RowsOf(tables, collection) + table.rows) == Kept(RowsOf(tables, collection)) + bucket
    requires now == Ids(Kept(RowsOf(tables, collection) + table.rows)) && AllIn(rejected, collection)
    requires
      var rows := RowsOf(tables, collection);
      Rejected(collection, rows + table.rows) == Rejected(collection, rows) + rejected
    ensures
      var more := RecordsIn(records, collection) + bucket;
      Passed(records[collection := more], quarantine + rejected, seen[collection := now], tables + [table])
  {
    hide Kept, Rejected, InCollection, RowsOf, Ids, CollectionOf, AllIn;
    var more, aside := records[collection := RecordsIn(records, collection) + bucket], quarantine + rejected;
    var known, all := seen[collection := now], tables + [table];
    forall c
      ensures PassedIn(more, aside, known, all, c)
    {
      RowsOfMore(tables, table, c);
      CollectionAppend(quarantine, rejected, collection, c);
      assert PassedIn(records, quarantine, seen, tables, c);
      assert RowsOf(tables, c) + [] == RowsOf(tables, c) && InCollection(quarantine, c) + [] == InCollection(quarantine, c);
    }
  }

  /** After the second pass over these host collections. */
  ghost predicate Referred(records: Records, quarantine: seq<Quarantined>, tables: seq<Table>, done: seq<string>) {
    forall c :: ReferredIn(records, quarantine, tables, done, c)
  }

  predicate ReferredIn(records: Records, quarantine: seq<Quarantined>, tables: seq<Table>, done: seq<string>, c: string) {
    var rows, e := RowsOf(tables, c), ExistingIn(tables);
    && RecordsIn(records, c) == (if c in done then Resolved(Kept(rows), e) else Kept(rows))
    && InCollection(quarantine, c) == Rejected(c, rows) + if c in done then Unresolved(c, Kept(rows), e) else []
  }

  lemma ReferredBegin(records: Records, quarantine: seq<Quarantined>, seen: Seen, tables: seq<Table>)
    requires Passed(records, quarantine, seen, tables)
    ensures Referred(records, quarantine, tables, [])
    ensures ExistingIn(tables) ==
      Existing(Ids(RecordsIn(records, "certificates")), Ids(RecordsIn(records, "access_lists")), Ids(RecordsIn(records, "users")))
  {
    hide Kept, Rejected, InCollection, RowsOf, Ids;
    forall c
      ensures ReferredIn(records, quarantine, tables, [], c)
    {
      assert PassedIn(records, quarantine, seen, tables, c);
      assert Rejected(c, RowsOf(tables, c)) + [] == Rejected(c, RowsOf(tables, c));
    }
    assert PassedIn(records, quarantine, seen, tables, "certificates");
    assert PassedIn(records, quarantine, seen, tables, "access_lists");
    assert PassedIn(records, quarantine, seen, tables, "users");
  }

  lemma ReferredMore(records: Records, quarantine: seq<Quarantined>, tables: seq<Table>, done: seq<string>, collection: string)
    requires Referred(records, quarantine, tables, done) && collection !in done
    ensures
      var rows, e := RecordsIn(records, collection), ExistingIn(tables);
      Referred(records[collection := Resolved(rows, e)], quarantine + Unresolved(collection, rows, e), tables, done + [collection])
  {
    hide Kept, Rejected, Resolved, Unresolved, InCollection, RowsOf, ExistingIn;
    var rows, e := RecordsIn(records, collection), ExistingIn(tables);
    UnresolvedIn(collection, rows, e);
    var post, all := records[collection := Resolved(rows, e)], done + [collection];
    var aside := quarantine + Unresolved(collection, rows, e);
    forall c
      ensures ReferredIn(post, aside, tables, all, c)
    {
      assert ReferredIn(records, quarantine, tables, done, c);
      CollectionAppend(quarantine, Unresolved(collection, rows, e), collection, c);
      assert Rejected(c, RowsOf(tables, c)) + [] == Rejected(c, RowsOf(tables, c));
      assert InCollection(quarantine, c) + [] == InCollection(quarantine, c);
    }
  }

  lemma {:induction false} UnresolvedIn(collection: string, rows: seq<Row>, e: Existing)
    ensures AllIn(Unresolved(collection, rows, e), collection)
  {
    if rows != [] {
      UnresolvedIn(collection, rows[..|rows| - 1], e);
    }
  }

  lemma ReferredEnd(records: Records, quarantine: seq<Quarantined>, tables: seq<Table>)
    requires Referred(records, quarantine, tables, HOSTS)
    ensures forall c :: RecordsIn(records, c) == RecordsFor(tables, c)
    ensures forall c :: InCollection(quarantine, c) == QuarantineFor(tables, c)
  {
    hide Kept, Rejected, Resolved, Unresolved, InCollection, RowsOf, ExistingIn;
    forall c
      ensures RecordsIn(records, c) == RecordsFor(tables, c) && InCollection(quarantine, c) == QuarantineFor(tables, c)
    {
      assert ReferredIn(records, quarantine, tables, HOSTS, c);
    }
  }

  lemma HostsDiffer(h: nat)
    requires h < |HOSTS|
    ensures HOSTS[h] !in HOSTS[..h] && HOSTS[..h + 1] == HOSTS[..h] + [HOSTS[h]]
  {
  }

  class PreflightReport {
    var records: Records
    var quarantine: seq<Quarantined>
    var warnings: seq<Warning>
    var counts: map<string, nat>

    constructor ()
      ensures records == map[] && quarantine == [] && warnings == []
    {
      records, quarantine, warnings, counts := map[], [], [], map[];
    }

    method CountRecords()
      modifies this`counts
      ensures counts.Keys == records.Keys && forall c :: c in counts ==> counts[c] == |records[c]|
    {
      counts := map[];
      var names := SortedNames(records.Keys);
      for k := 0 to |names|
        invariant forall c :: c in counts <==> c in names[..k]
        invariant forall c :: c in counts ==> c in records && counts[c] == |records[c]|
      {
        assert names[k] in records.Keys;
        counts := counts[names[k] := |records[names[k]]|];
      }
      assert names[..|names|] == names;
    }

    /** Folds the related tables away, and warns about what has no owner. */
    method NormalizeRelatedTables(source: Source) returns (tables: seq<Table>)
      modifies this`warnings
      ensures tables == Normalized(source)
      ensures warnings == old(warnings) + FoldWarnings(source)
    {
      hide Granted, CredentialOf, Replaced, RowsNamed, GrantAll, Credentials, WithChildren, PermissionWarnings, AuthWarnings, ChildWarnings;
      var users := FoldPermissions(RowsNamed(source.tables, "user"), source.permissions);
      var credentials := CollectCredentials(users, source.auths);
      var listed := RowsNamed(source.tables, "access_list");
      var itemized := FoldChildren(listed, Items, source.items);
      var lists := FoldChildren(itemized, Clients, source.clients);
      ChildrenKeepRows(listed, Items, source.items);
      SameWarnings(listed, itemized, Clients, source.clients);
      tables := Replaced(Replaced(source.tables, "user", users), "access_list", lists);
      if credentials != [] {
        tables := Assigned(tables, "_credentials", credentials);
      }
    }

    method FoldPermissions(rows: seq<Row>, permissions: seq<Permission>) returns (users: seq<Row>)
      modifies this`warnings
      ensures users == GrantAll(rows, permissions)
      ensures warnings == old(warnings) + PermissionWarnings(rows, permissions)
    {
      hide Granted, SameRows;
      users := rows;
      for k := 0 to |permissions|
        invariant users == GrantAll(rows, permissions[..k])
        invariant warnings == old(warnings) + PermissionWarnings(rows, permissions[..k])
      {
        var p := permissions[k];
        assert permissions[..k + 1][..k] == permissions[..k];
        GrantsKeepRows(rows, permissions[..k]);
        SameOwners(rows, users, OwnerKey(p.user));
        Warn(LastWith(users, OwnerKey(p.user)).None?, OrphanPermission(OwnerKey(p.user)));
        users := Granted(users, p);
      }
      assert permissions[..|permissions|] == permissions;
    }

    method FoldChildren(rows: seq<Row>, f: Field, children: seq<Child>) returns (lists: seq<Row>)
      modifies this`warnings
      ensures lists == WithChildren(rows, f, children)
      ensures warnings == old(warnings) + ChildWarnings(rows, f, children)
    {
      hide WithChild, SameRows;
      lists := rows;
      for k := 0 to |children|
        invariant lists == WithChildren(rows, f, children[..k])
        invariant warnings == old(warnings) + ChildWarnings(rows, f, children[..k])
      {
        var child := children[k];
        assert children[..k + 1][..k] == children[..k];
        ChildrenKeepRows(rows, f, children[..k]);
        SameOwners(rows, lists, OwnerKey(child.accessList));
        Warn(LastWith(lists, OwnerKey(child.accessList)).None?, OrphanChild(RelatedTable(f), OwnerKey(child.accessList)));
        lists := WithChild(lists, f, child);
      }
      assert children[..|children|] == children;
    }

    method Warn(really: bool, w: Warning)
      modifies this`warnings
      ensures warnings == if really then old(warnings) + [w] else old(warnings)
    {
      if really {
        warnings := warnings + [w];
      }
    }

    method CollectCredentials(users: seq<Row>, auths: seq<Auth>) returns (credentials: seq<Row>)
      modifies this`warnings
      ensures credentials == Credentials(users, auths)
      ensures warnings == old(warnings) + AuthWarnings(users, auths)
    {
      hide CredentialOf;
      credentials := [];
      for k := 0 to |auths|
        invariant credentials == Credentials(users, auths[..k])
        invariant warnings == old(warnings) + AuthWarnings(users, auths[..k])
      {
        assert auths[..k + 1][..k] == auths[..k];
        var row := CredentialOf(users, auths[k]);
        if row.Some? {
          credentials := credentials + [row.value];
        } else if auths[k].kind != "password" {
          warnings := warnings + [UnsupportedAuth(auths[k].kind)];
        } else {
          warnings := warnings + [OrphanAuth(OwnerKey(auths[k].id))];
        }
      }
      assert auths[..|auths|] == auths;
    }

    /** Sorts the rows of one table, given the rows of its collection that came before. */
    method Sift(collection: string, rows: seq<Row>, seen: set<string>, ghost earlier: seq<Row>)
      returns (bucket: seq<Row>, now: set<string>, ghost rejected: seq<Quarantined>)
      requires seen == Ids(Kept(earlier))
      modifies this`quarantine
      ensures Kept(earlier + rows) == Kept(earlier) + bucket && now == Ids(Kept(earlier + rows))
      ensures Rejected(collection, earlier + rows) == Rejected(collection, earlier) + rejected
      ensures quarantine == old(quarantine) + rejected && AllIn(rejected, collection)
    {
      hide Kept, Rejected, Verdict, Ids;
      bucket, now, rejected := [], seen, [];
      assert earlier + rows[..0] == earlier;
      for k := 0 to |rows|
        invariant Kept(earlier + rows[..k]) == Kept(earlier) + bucket && now == Ids(Kept(earlier + rows[..k]))
        invariant Rejected(collection, earlier + rows[..k]) == Rejected(collection, earlier) + rejected
        invariant quarantine == old(quarantine) + rejected && AllIn(rejected, collection)
      {
        ghost var sofar := earlier + rows[..k];
        assert earlier + rows[..k + 1] == sofar + [rows[k]];
        SiftOne(collection, sofar, rows[k]);
        var verdict := Verdict(rows[k], now);
        if verdict.Some? {
          quarantine := quarantine + [QuarantineOf(collection, rows[k], verdict.value)];
          rejected := rejected + [QuarantineOf(collection, rows[k], verdict.value)];
        } else {
          OneMoreId(Kept(sofar), rows[k]);
          now := now + {IdText(rows[k])};
          bucket := bucket + [rows[k]];
        }
      }
      assert rows[..|rows|] == rows;
    }

    method SortTables(tables: seq<Table>) returns (ghost seen: Seen)
      requires records == map[] && quarantine == []
      modifies this
      ensures Passed(records, quarantine, seen, tables)
      ensures warnings == old(warnings) + UnsupportedIn(tables)
    {
      hide Passed, Kept, Rejected, CollectionOf, RowsOf, Ids, UnsupportedIn;
      var known: Seen := map[];
      NothingPassed();
      assert warnings == warnings + [];
      for i := 0 to |tables|
        invariant Passed(records, quarantine, known, tables[..i])
        invariant warnings == old(warnings) + UnsupportedIn(tables[..i])
      {
        assert tables[..i + 1] == tables[..i] + [tables[i]];
        UnsupportedMore(tables[..i], tables[i]);
        var named := CollectionOf(tables[i].name);
        if named.None? {
          PassedSkip(records, quarantine, known, tables[..i], tables[i]);
          warnings := warnings + [Unsupported(tables[i].name)];
        } else {
          var c := named.value;
          PassedAt(records, quarantine, known, tables[..i], c);
          ghost var aside := quarantine;
          var bucket, now, rejected := Sift(c, tables[i].rows, SeenIn(known, c), RowsOf(tables[..i], c));
          PassedMore(records, aside, known, tables[..i], tables[i], c, bucket, now, rejected);
          known := known[c := now];
          records := records[c := RecordsIn(records, c) + bucket];
        }
      }
      assert tables[..|tables|] == tables;
      seen := known;
    }

    /** Moves hosts whose references do not resolve into quarantine. */
    method QuarantineBrokenReferences(ghost seen: Seen, ghost tables: seq<Table>)
      requires Passed(records, quarantine, seen, tables)
      modifies this`records, this`quarantine
      ensures forall c :: RecordsIn(records, c) == RecordsFor(tables, c)
      ensures forall c :: InCollection(quarantine, c) == QuarantineFor(tables, c)
    {
      hide Passed, Referred, Resolved, Unresolved, Ids, ExistingIn, RecordsFor, QuarantineFor, InCollection;
      ReferredBegin(records, quarantine, seen, tables);
      var e := Existing(
        Ids(RecordsIn(records, "certificates")), Ids(RecordsIn(records, "access_lists")), Ids(RecordsIn(records, "users")));
      for h := 0 to |HOSTS|
        invariant e == ExistingIn(tables) && Referred(records, quarantine, tables, HOSTS[..h])
      {
        HostsDiffer(h);
        ReferredMore(records, quarantine, tables, HOSTS[..h], HOSTS[h]);
        var accepted := Refer(HOSTS[h], RecordsIn(records, HOSTS[h]), e);
        records := records[HOSTS[h] := accepted];
      }
      assert HOSTS[..|HOSTS|] == HOSTS;
      ReferredEnd(records, quarantine, tables);
    }

    method Refer(collection: string, rows: seq<Row>, e: Existing) returns (accepted: seq<Row>)
      modifies this`quarantine
      ensures accepted == Resolved(rows, e)
      ensures quarantine == old(quarantine) + Unresolved(collection, rows, e)
    {
      hide BrokenFields;
      accepted := [];
      for k := 0 to |rows|
        invariant accepted == Resolved(rows[..k], e)
        invariant quarantine == old(quarantine) + Unresolved(collection, rows[..k], e)
      {
        assert rows[..k + 1][..k] == rows[..k];
        var broken := BrokenFields(rows[k], e);
        if broken != [] {
          quarantine := quarantine + [QuarantineOf(collection, rows[k], Broken(broken))];
        } else {
          accepted := accepted + [rows[k]];
        }
      }
      assert rows[..|rows|] == rows;
    }
  }

  /** The whole preflight: what it reports of each collection is what the two passes make of its rows. */
  method PreflightNpm(source: Source) returns (report: PreflightReport)
    ensures fresh(report)
    ensures forall c :: RecordsIn(report.records, c) == RecordsFor(Normalized(source), c)
    ensures forall c :: InCollection(report.quarantine, c) == QuarantineFor(Normalized(source), c)
    ensures report.warnings == FoldWarnings(source) + UnsupportedIn(Normalized(source))
    ensures report.counts.Keys == report.records.Keys
    ensures forall c :: c in report.counts ==> report.counts[c] == |report.records[c]|
  {
    hide Normalized, FoldWarnings, UnsupportedIn, RecordsFor, QuarantineFor, InCollection, Passed;
    report := new PreflightReport();
    var tables := report.NormalizeRelatedTables(source);
    ghost var seen := report.SortTables(tables);
    report.QuarantineBrokenReferences(seen, tables);
    report.CountRecords();
  }

  lemma {:induction false} SameWarnings(a: seq<Row>, b: seq<Row>, f: Field, children: seq<Child>)
    requires SameRows(a, b)
    ensures ChildWarnings(a, f, children) == ChildWarnings(b, f, children)
  {
    if children != [] {
      SameWarnings(a, b, f, children[..|children| - 1]);
      SameOwners(a, b, OwnerKey(children[|children| - 1].accessList));
    }
  }

  lemma PassedAt(records: Records, quarantine: seq<Quarantined>, seen: Seen, tables: seq<Table>, c: string)
    requires Passed(records, quarantine, seen, tables)
    ensures SeenIn(seen, c) == Ids(Kept(RowsOf(tables, c)))
  {
    assert PassedIn(records, quarantine, seen, tables, c);
  }
}
