/** The route document: how the controller renders it and how the router reads it back. */
module QuicRoutes {
  import opened Sorting
  import opened StringOrder
  import ClientHello

  datatype Route = Route(serverName: string, target: string, targetPort: nat, alpn: string, idleTimeout: int)

  datatype Listener = Listener(address: string, port: nat, routes: seq<Route>)

  type Document = seq<Listener>

  /** A row of the route table. */
  datatype Row = Row(enabled: bool, address: string, port: nat, route: Route) {
    function Place(): Endpoint {
      Endpoint(address, port)
    }
  }

  datatype Endpoint = Endpoint(address: string, port: nat)

  /*** Orders ***/

  predicate Earlier(a: Endpoint, b: Endpoint) {
    Precedes(a.address, b.address) || (a.address == b.address && a.port < b.port)
  }

  /** The order of rows in a document: by address, port and server name. */
  predicate Before(a: Row, b: Row) {
    Earlier(a.Place(), b.Place()) || (a.Place() == b.Place() && Precedes(a.route.serverName, b.route.serverName))
  }

  lemma EarlierIsOrder(a: Endpoint, b: Endpoint, c: Endpoint)
    ensures Earlier(a, b) || a == b || Earlier(b, a)
    ensures !(Earlier(a, b) && Earlier(b, a)) && !Earlier(a, a)
    ensures Earlier(a, b) && Earlier(b, c) ==> Earlier(a, c)
  {
    PrecedesIsTotal(a.address, b.address);
    PrecedesIsTotal(a.address, a.address);
    if Precedes(a.address, b.address) && Precedes(b.address, c.address) {
      PrecedesIsTransitive(a.address, b.address, c.address);
    }
  }

  function EndpointOrder(): (Endpoint, Endpoint) -> bool {
    (a: Endpoint, b: Endpoint) => Earlier(a, b)
  }

  lemma EndpointsAreOrdered()
    ensures StrictOrder(EndpointOrder())
  {
    forall a, b, c
      ensures Earlier(a, b) || a == b || Earlier(b, a)
      ensures Earlier(a, b) ==> a != b && !Earlier(b, a)
      ensures Earlier(a, b) && Earlier(b, c) ==> Earlier(a, c)
    {
      EarlierIsOrder(a, b, c);
    }
  }

  /*** Rendering ***/

  function Enabled(rows: seq<Row>): seq<Row> {
    if rows == [] then []
    else Enabled(rows[..|rows| - 1]) + if rows[|rows| - 1].enabled then [rows[|rows| - 1]] else []
  }

  function Endpoints(rows: seq<Row>): set<Endpoint> {
    set row | row in rows :: row.Place()
  }

  /** The rows of one endpoint, in order. */
  function Group(rows: seq<Row>, e: Endpoint): seq<Row> {
    if rows == [] then []
    else Group(rows[..|rows| - 1], e) + if rows[|rows| - 1].Place() == e then [rows[|rows| - 1]] else []
  }

  /** `sorted` over endpoints. */
  function Ascending(keys: set<Endpoint>): (s: seq<Endpoint>)
    ensures forall k :: k in s <==> k in keys
    ensures forall i, j :: 0 <= i < j < |s| ==> Earlier(s[i], s[j])
  {
    EndpointsAreOrdered();
    Sorted(EndpointOrder(), keys)
  }

  /** `sorted` by server name; rows of equal name keep their order. */
  function ByName(rows: seq<Row>): seq<Row> {
    if rows == [] then [] else InsertByName(ByName(rows[..|rows| - 1]), rows[|rows| - 1])
  }

  function InsertByName(rows: seq<Row>, row: Row): seq<Row> {
    if rows == [] then [row]
    else
      var last := rows[|rows| - 1];
      if Precedes(row.route.serverName, last.route.serverName)
      then InsertByName(rows[..|rows| - 1], row) + [last]
      else rows + [row]
  }

  predicate InNameOrder(rows: seq<Row>) {
    forall i, j :: 0 <= i < j < |rows| ==> !Precedes(rows[j].route.serverName, rows[i].route.serverName)
  }

  lemma {:induction false} InsertedContents(rows: seq<Row>, row: Row)
    ensures multiset(InsertByName(rows, row)) == multiset(rows) + multiset{row}
  {
    if rows != [] {
      InsertedContents(rows[..|rows| - 1], row);
      assert rows == rows[..|rows| - 1] + [rows[|rows| - 1]];
    }
  }

  lemma {:induction false} InsertedInOrder(rows: seq<Row>, row: Row)
    requires InNameOrder(rows)
    ensures InNameOrder(InsertByName(rows, row))
  {
    if rows != [] {
      var init, last := rows[..|rows| - 1], rows[|rows| - 1];
      var name := row.route.serverName;
      if Precedes(name, last.route.serverName) {
        InsertedInOrder(init, row);
        PrecedesIsTotal(name, last.route.serverName);
        var more := InsertByName(init, row);
        InsertedContents(init, row);
        forall i | 0 <= i < |more|
          ensures !Precedes(last.route.serverName, more[i].route.serverName)
        {
          assert more[i] in multiset(more);
          assert more[i] == row || more[i] in init;
        }
      } else {
        forall i | 0 <= i < |rows|
          ensures !Precedes(name, rows[i].route.serverName)
        {
          if i < |init| {
            NotAfterIsTransitive(rows[i].route.serverName, last.route.serverName, name);
          }
        }
      }
    }
  }

  lemma {:induction false} SortedByName(rows: seq<Row>)
    ensures multiset(ByName(rows)) == multiset(rows) && InNameOrder(ByName(rows))
  {
    if rows != [] {
      var init, last := rows[..|rows| - 1], rows[|rows| - 1];
      SortedByName(init);
      InsertedContents(ByName(init), last);
      InsertedInOrder(ByName(init), last);
      assert rows == init + [last];
    }
  }

  function Routes(rows: seq<Row>): seq<Route> {
    seq(|rows|, i requires 0 <= i < |rows| => rows[i].route)
  }

  function ListenerOf(rows: seq<Row>, e: Endpoint): Listener {
    Listener(e.address, e.port, Routes(ByName(Group(rows, e))))
  }

  function Render(rows: seq<Row>): Document {
    var enabled := Enabled(rows);
    var keys := Ascending(Endpoints(enabled));
    seq(|keys|, i requires 0 <= i < |keys| => ListenerOf(enabled, keys[i]))
  }

  lemma NothingGrouped()
    ensures Endpoints([]) == {} && forall e :: Group([], e) == []
  {
  }

  lemma OneMoreGrouped(rows: seq<Row>, i: nat, e: Endpoint)
    requires i < |rows|
    ensures Endpoints(rows[..i + 1]) == Endpoints(rows[..i]) + {rows[i].Place()}
    ensures Group(rows[..i + 1], e) == Group(rows[..i], e) + if rows[i].Place() == e then [rows[i]] else []
  {
    assert rows[..i + 1] == rows[..i] + [rows[i]];
    assert rows[..i + 1][..i] == rows[..i];
  }

  /** Groups rows by endpoint. */
  method Groups(rows: seq<Row>) returns (keys: seq<Endpoint>, grouped: map<Endpoint, seq<Row>>)
    ensures keys == Ascending(Endpoints(rows)) && grouped.Keys == Endpoints(rows)
    ensures forall e :: e in grouped ==> grouped[e] == Group(rows, e)
  {
    hide Ascending, Group, Endpoints;
    NothingGrouped();
    grouped := map[];
    var i := 0;
    while i < |rows|
      invariant 0 <= i <= |rows|
      invariant grouped.Keys == Endpoints(rows[..i])
      invariant forall e :: Group(rows[..i], e) == if e in grouped then grouped[e] else []
    {
      forall e {
        OneMoreGrouped(rows, i, e);
      }
      var e := rows[i].Place();
      grouped := grouped[e := (if e in grouped then grouped[e] else []) + [rows[i]]];
      i := i + 1;
    }
    assert rows[..i] == rows;
    keys := Ascending(grouped.Keys);
  }

  method RenderQuicRoutes(rows: seq<Row>) returns (document: Document)
    ensures document == Render(rows)
  {
    hide Ascending, ByName, Enabled, Endpoints, Group, Routes;
    var enabled := Enabled(rows);
    var keys, grouped := Groups(enabled);
    document := [];
    var i := 0;
    while i < |keys|
      invariant 0 <= i <= |keys|
      invariant |document| == i && forall n :: 0 <= n < i ==> document[n] == ListenerOf(enabled, keys[n])
    {
      assert keys[i] in grouped;
      document := document + [Listener(keys[i].address, keys[i].port, Routes(ByName(grouped[keys[i]])))];
      i := i + 1;
    }
  }

  /*** Reading back ***/

  function AddRoutes(table: map<string, Route>, routes: seq<Route>): map<string, Route>
    decreases |routes|
  {
    if routes == [] then table
    else AddRoutes(table, routes[..|routes| - 1])[ClientHello.Canonical(routes[|routes| - 1].serverName) := routes[|routes| - 1]]
  }

  function Load(document: Document): map<string, Route>
    decreases |document|
  {
    if document == [] then map[]
    else AddRoutes(Load(document[..|document| - 1]), document[|document| - 1].routes)
  }

  method LoadDocument(document: Document) returns (routes: map<string, Route>)
    ensures routes == Load(document)
  {
    routes := map[];
    var i := 0;
    while i < |document|
      invariant 0 <= i <= |document|
      invariant routes == Load(document[..i])
    {
      var listed, j := document[i].routes, 0;
      while j < |listed|
        invariant 0 <= j <= |listed|
        invariant routes == AddRoutes(Load(document[..i]), listed[..j])
      {
        assert listed[..j + 1][..j] == listed[..j];
        routes := routes[ClientHello.Canonical(listed[j].serverName) := listed[j]];
        j := j + 1;
      }
      assert listed[..j] == listed;
      assert document[..i + 1][..i] == document[..i];
      i := i + 1;
    }
    assert document[..i] == document;
  }

  /*** What is read back is what was rendered ***/

  lemma {:induction false} EnabledExact(rows: seq<Row>, row: Row)
    ensures row in Enabled(rows) <==> row in rows && row.enabled
  {
    if rows != [] {
      EnabledExact(rows[..|rows| - 1], row);
      assert rows == rows[..|rows| - 1] + [rows[|rows| - 1]];
    }
  }

  lemma {:induction false} GroupExact(rows: seq<Row>, e: Endpoint, row: Row)
    ensures row in Group(rows, e) <==> row in rows && row.Place() == e
  {
    if rows != [] {
      GroupExact(rows[..|rows| - 1], e, row);
      assert rows == rows[..|rows| - 1] + [rows[|rows| - 1]];
    }
  }

  predicate InDocument(document: Document, i: int, j: int) {
    0 <= i < |document| && 0 <= j < |document[i].routes|
  }

  /** The `j`th route of the `i`th listener is this row. */
  predicate Shows(document: Document, i: int, j: int, row: Row) {
    && InDocument(document, i, j)
    && row.Place() == Endpoint(document[i].address, document[i].port) && row.route == document[i].routes[j]
  }

  lemma ListenerAt(rows: seq<Row>, i: nat) returns (sorted: seq<Row>)
    requires i < |Render(rows)|
    ensures
      var l := Render(rows)[i];
      && sorted == ByName(Group(Enabled(rows), Endpoint(l.address, l.port)))
      && l.routes == Routes(sorted)
      && InNameOrder(sorted)
      && (forall row :: row in sorted <==> row in rows && row.enabled && row.Place() == Endpoint(l.address, l.port))
  {
    hide Ascending, ByName;
    var l := Render(rows)[i];
    var group := Group(Enabled(rows), Endpoint(l.address, l.port));
    sorted := ByName(group);
    SortedByName(group);
    forall row
      ensures row in sorted <==> row in rows && row.enabled && row.Place() == Endpoint(l.address, l.port)
    {
      assert row in sorted <==> row in multiset(sorted);
      assert row in group <==> row in multiset(group);
      GroupExact(Enabled(rows), Endpoint(l.address, l.port), row);
      EnabledExact(rows, row);
    }
  }

  /** Every enabled row is in the document, and nothing else is. */
  lemma RenderedExactly(rows: seq<Row>)
    ensures forall row :: row in rows && row.enabled ==> exists i, j :: Shows(Render(rows), i, j, row)
    ensures forall i, j :: InDocument(Render(rows), i, j) ==>
              exists row :: row in rows && row.enabled && Shows(Render(rows), i, j, row)
  {
    hide Ascending, ByName;
    var document, enabled := Render(rows), Enabled(rows);
    var keys := Ascending(Endpoints(enabled));
    forall row | row in rows && row.enabled
      ensures exists i, j :: Shows(document, i, j, row)
    {
      EnabledExact(rows, row);
      assert row.Place() in Endpoints(enabled);
      var i :| 0 <= i < |keys| && keys[i] == row.Place();
      var sorted := ListenerAt(rows, i);
      var j :| 0 <= j < |sorted| && sorted[j] == row;
      assert Shows(document, i, j, row);
    }
    forall i, j | InDocument(document, i, j)
      ensures exists row :: row in rows && row.enabled && Shows(document, i, j, row)
    {
      var sorted := ListenerAt(rows, i);
      assert sorted[j] in sorted;
      assert Shows(document, i, j, sorted[j]);
    }
  }

  predicate Named(document: Document, i: int, j: int, name: string) {
    InDocument(document, i, j) && ClientHello.Canonical(document[i].routes[j].serverName) == name
  }

  predicate NoLater(i: int, j: int, m: int, n: int) {
    i < m || (i == m && j <= n)
  }

  /** `(i, j)` is the last place of the document where the name occurs. */
  ghost predicate LastNamed(document: Document, i: int, j: int, name: string) {
    Named(document, i, j, name) && forall m, n :: Named(document, m, n, name) ==> NoLater(m, n, i, j)
  }

  ghost predicate LastIn(routes: seq<Route>, j: int, name: string) {
    && 0 <= j < |routes| && ClientHello.Canonical(routes[j].serverName) == name
    && forall n :: j < n < |routes| ==> ClientHello.Canonical(routes[n].serverName) != name
  }

  lemma {:induction false} LastRouteWins(table: map<string, Route>, routes: seq<Route>, name: string)
    ensures
      var post := AddRoutes(table, routes);
      || (exists j :: LastIn(routes, j, name) && name in post && post[name] == routes[j])
      || ((forall n :: 0 <= n < |routes| ==> ClientHello.Canonical(routes[n].serverName) != name)
            && (name in post <==> name in table) && (name in table ==> post[name] == table[name]))
  {
    hide ClientHello.Canonical;
    if routes != [] {
      var last := |routes| - 1;
      LastRouteWins(table, routes[..last], name);
      if ClientHello.Canonical(routes[last].serverName) == name {
        assert LastIn(routes, last, name);
      } else if j :| LastIn(routes[..last], j, name) {
        assert LastIn(routes, j, name);
      }
    }
  }

  /** The table has exactly the names of the document, each bound to its last occurrence. */
  lemma {:induction false} LoadedExactly(document: Document, name: string)
    ensures name in Load(document) <==> exists i, j :: Named(document, i, j, name)
    ensures name in Load(document) ==> exists i, j :: LastNamed(document, i, j, name) && Load(document)[name] == document[i].routes[j]
  {
    hide ClientHello.Canonical;
    if document != [] {
      var last := |document| - 1;
      var rest := document[..last];
      LoadedExactly(rest, name);
      LastRouteWins(Load(rest), document[last].routes, name);
      assert forall i, j :: i < last ==> (Named(document, i, j, name) <==> Named(rest, i, j, name));
      if j :| LastIn(document[last].routes, j, name) {
        assert LastNamed(document, last, j, name);
      } else if name in Load(rest) {
        var i, j :| LastNamed(rest, i, j, name) && Load(rest)[name] == rest[i].routes[j];
        assert LastNamed(document, i, j, name);
      }
    }
  }

  /** Rows are told apart by address, port and server name. */
  ghost predicate Unique(rows: seq<Row>) {
    forall a, b :: a in rows && b in rows && a.Place() == b.Place() && a.route.serverName == b.route.serverName ==> a == b
  }

  /** An enabled row of this name such that no other comes after it. */
  ghost predicate Greatest(rows: seq<Row>, row: Row, name: string) {
    && row in rows && row.enabled && ClientHello.Canonical(row.route.serverName) == name
    && forall other :: other in rows && other.enabled && ClientHello.Canonical(other.route.serverName) == name ==>
         other == row || Before(other, row)
  }

  lemma LaterIsGreater(rows: seq<Row>, i: int, j: int, a: Row, m: int, n: int, b: Row)
    requires Unique(rows) && a in rows && b in rows
    requires Shows(Render(rows), i, j, a) && Shows(Render(rows), m, n, b) && NoLater(i, j, m, n)
    ensures a == b || Before(a, b)
  {
    hide Ascending, ByName;
    if i == m {
      var sorted := ListenerAt(rows, i);
      PrecedesIsTotal(a.route.serverName, b.route.serverName);
    }
  }

  /**
   * Reading back the rendered routes: the names are exactly the canonical names
   * of enabled rows, each bound to its row greatest by address, port and name.
   */
  lemma ReadBack(rows: seq<Row>, name: string)
    requires Unique(rows)
    ensures name in Load(Render(rows)) <==> exists row :: row in rows && row.enabled && ClientHello.Canonical(row.route.serverName) == name
    ensures name in Load(Render(rows)) ==> exists row :: Greatest(rows, row, name) && Load(Render(rows))[name] == row.route
  {
    hide Render, Load, ClientHello.Canonical, Unique, Before;
    var document := Render(rows);
    LoadedExactly(document, name);
    RenderedExactly(rows);
    forall row | row in rows && row.enabled && ClientHello.Canonical(row.route.serverName) == name
      ensures exists i, j :: Named(document, i, j, name) && Shows(document, i, j, row)
    {
      var i, j :| Shows(document, i, j, row);
      assert Named(document, i, j, name);
    }
    if name in Load(document) {
      var i, j :| LastNamed(document, i, j, name) && Load(document)[name] == document[i].routes[j];
      var row :| row in rows && row.enabled && Shows(document, i, j, row);
      forall other | other in rows && other.enabled && ClientHello.Canonical(other.route.serverName) == name
        ensures other == row || Before(other, row)
      {
        var m, n :| Named(document, m, n, name) && Shows(document, m, n, other);
        LaterIsGreater(rows, m, n, other, i, j, row);
      }
      assert Greatest(rows, row, name);
    }
  }

  /*** The order in which rows are listed does not matter ***/

  lemma {:induction false} EnabledCount(rows: seq<Row>, row: Row)
    ensures multiset(Enabled(rows))[row] == if row.enabled then multiset(rows)[row] else 0
  {
    if rows != [] {
      EnabledCount(rows[..|rows| - 1], row);
      assert rows == rows[..|rows| - 1] + [rows[|rows| - 1]];
    }
  }

  lemma {:induction false} GroupCount(rows: seq<Row>, e: Endpoint, row: Row)
    ensures multiset(Group(rows, e))[row] == if row.Place() == e then multiset(rows)[row] else 0
  {
    if rows != [] {
      GroupCount(rows[..|rows| - 1], e, row);
      assert rows == rows[..|rows| - 1] + [rows[|rows| - 1]];
    }
  }

  /** Rows of the same name are the same row. */
  ghost predicate NamesTell(rows: multiset<Row>) {
    forall a, b :: a in rows && b in rows && a.route.serverName == b.route.serverName ==> a == b
  }

  lemma LastIsGreatest(rows: seq<Row>, row: Row)
    requires InNameOrder(rows) && row in multiset(rows)
    ensures row == rows[|rows| - 1] || !Precedes(rows[|rows| - 1].route.serverName, row.route.serverName)
  {
    var m :| 0 <= m < |rows| && rows[m] == row;
  }

  lemma SameLast(a: seq<Row>, b: seq<Row>)
    requires a != [] && b != [] && multiset(a) == multiset(b)
    requires InNameOrder(a) && InNameOrder(b) && NamesTell(multiset(a))
    ensures a[|a| - 1] == b[|b| - 1]
  {
    var x, y := a[|a| - 1], b[|b| - 1];
    hide Precedes;
    assert x in multiset(a) && y in multiset(b);
    LastIsGreatest(b, x);
    LastIsGreatest(a, y);
    PrecedesIsTotal(x.route.serverName, y.route.serverName);
  }

  lemma WithoutLast(a: seq<Row>)
    requires a != []
    ensures multiset(a[..|a| - 1]) == multiset(a) - multiset{a[|a| - 1]}
    ensures a == a[..|a| - 1] + [a[|a| - 1]]
    ensures InNameOrder(a) ==> InNameOrder(a[..|a| - 1])
    ensures NamesTell(multiset(a)) ==> NamesTell(multiset(a[..|a| - 1]))
  {
    assert a == a[..|a| - 1] + [a[|a| - 1]];
  }

  lemma SameSize(a: seq<Row>, b: seq<Row>)
    requires multiset(a) == multiset(b)
    ensures |a| == |b|
  {
    assert |a| == |multiset(a)| && |b| == |multiset(b)|;
  }

  /** There is only one way to order rows of distinct names by name. */
  lemma {:induction false} OneOrder(a: seq<Row>, b: seq<Row>)
    requires InNameOrder(a) && InNameOrder(b) && multiset(a) == multiset(b) && NamesTell(multiset(a))
    ensures a == b
  {
    hide InNameOrder, NamesTell;
    SameSize(a, b);
    if a != [] {
      SameLast(a, b);
      WithoutLast(a);
      WithoutLast(b);
      OneOrder(a[..|a| - 1], b[..|b| - 1]);
    }
  }

  lemma {:induction false} SameEndpoints(a: seq<Row>, b: seq<Row>)
    requires multiset(a) == multiset(b)
    ensures Endpoints(Enabled(a)) == Endpoints(Enabled(b))
  {
    forall row
      ensures row in Enabled(a) <==> row in Enabled(b)
    {
      EnabledExact(a, row);
      EnabledExact(b, row);
      assert row in a <==> row in multiset(a);
      assert row in b <==> row in multiset(b);
    }
  }

  /** The rows of an endpoint are the same however they were listed. */
  lemma SameGroup(a: seq<Row>, b: seq<Row>, e: Endpoint)
    requires Unique(a) && multiset(a) == multiset(b)
    ensures ByName(Group(Enabled(a), e)) == ByName(Group(Enabled(b), e))
  {
    hide Enabled, Group, ByName, InNameOrder;
    var left, right := Group(Enabled(a), e), Group(Enabled(b), e);
    forall row
      ensures multiset(left)[row] == multiset(right)[row]
      ensures row in multiset(left) ==> row in a && row.Place() == e
    {
      EnabledCount(a, row);
      EnabledCount(b, row);
      GroupCount(Enabled(a), e, row);
      GroupCount(Enabled(b), e, row);
      assert row in a <==> row in multiset(a);
    }
    SortedByName(left);
    SortedByName(right);
    OneOrder(ByName(left), ByName(right));
  }

  lemma RenderIgnoresOrder(a: seq<Row>, b: seq<Row>)
    requires Unique(a) && multiset(a) == multiset(b)
    ensures Render(a) == Render(b)
  {
    hide Ascending, ByName, Group, Enabled, Endpoints, Unique;
    SameEndpoints(a, b);
    forall e
      ensures ListenerOf(Enabled(a), e) == ListenerOf(Enabled(b), e)
    {
      SameGroup(a, b, e);
    }
  }
}
